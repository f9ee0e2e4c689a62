/** The theory of a buddy heap: which sets of blocks tile the managed pages, and why the free
    blocks are determined by the live ones. */
module BuddyBlocks {
  import opened Bits

  const PAGE_SIZE := 4096

  /** The 2^order pages beginning at start. */
  datatype Block = Block(start: nat, order: nat) {
    function Size(): nat { Pow2(order) }

    function End(): nat { start + Pow2(order) }

    predicate Holds(x: int) { start <= x < End() }

    /** The other half of the block one order up (buddy_block's address computation). */
    function Buddy(): Block {
      if (start / Pow2(order)) % 2 == 0 then Block(start + Pow2(order), order)
      else
        QuotientSmall(start, Pow2(order));
        Block(start - Pow2(order), order)
    }

    /** The block one order up that this block and its buddy make together. */
    function Parent(): Block {
      if (start / Pow2(order)) % 2 == 0 then Block(start, order + 1)
      else Block(Buddy().start, order + 1)
    }
  }

  predicate Disjoint(a: Block, b: Block) {
    a.End() <= b.start || b.End() <= a.start
  }

  predicate Within(a: Block, b: Block) {
    b.start <= a.start && a.End() <= b.End()
  }

  /** b is an aligned block of a heap of 2^max pages. */
  predicate InRange(max: nat, b: Block) {
    b.order <= max && Aligned(b.start, b.order) && b.End() <= Pow2(max)
  }

  ghost predicate Covered(s: set<Block>, x: int) {
    exists b :: b in s && b.Holds(x)
  }

  /** The blocks of s are aligned, pairwise disjoint and together hold every page. */
  ghost predicate Tiles(max: nat, s: set<Block>) {
    && (forall b :: b in s ==> InRange(max, b))
    && (forall b, c :: b in s && c in s && b != c ==> Disjoint(b, c))
    && (forall x :: 0 <= x < Pow2(max) ==> Covered(s, x))
  }

  /** The buddy invariant: free and live blocks tile the heap, and no two buddies are both free. */
  ghost predicate Balanced(max: nat, free: set<Block>, live: set<Block>) {
    && Tiles(max, free + live)
    && free !! live
    && (forall b, c :: b in free && c in free && b.order < max ==> c != b.Buddy())
  }

  /** Balanced, in a form that is only unfolded where Balanced is mentioned. */
  ghost predicate Invariant(max: nat, free: set<Block>, live: set<Block>) {
    forall f {:trigger Balanced(max, f, live)} :: f == free ==> Balanced(max, f, live)
  }

  /** No page of b is in a live block. */
  ghost predicate WhollyFree(live: set<Block>, b: Block) {
    forall l :: l in live ==> Disjoint(l, b)
  }

  /** b is an aligned free run that cannot be extended to a larger aligned free run. */
  ghost predicate Maximal(max: nat, live: set<Block>, b: Block) {
    InRange(max, b) && WhollyFree(live, b) && (b.order == max || !WhollyFree(live, b.Parent()))
  }

  // ----- geometry of aligned blocks -----

  lemma Nested(a: Block, b: Block)
    requires Aligned(a.start, a.order) && Aligned(b.start, b.order) && a.order <= b.order
    ensures Disjoint(a, b) || Within(a, b)
  {
    var d := Pow2(a.order);
    AlignedDown(b.start, a.order, b.order);
    Pow2Aligned(a.order, b.order);
    AlignedSum(b.start, Pow2(b.order), a.order);
    if a.start < b.start {
      MultipleGap(a.start, b.start, d);
    } else if a.start < b.End() {
      MultipleGap(a.start, b.End(), d);
    }
  }

  lemma SameSpan(a: Block, b: Block)
    requires Within(a, b)
    ensures a.order <= b.order
    ensures a.order == b.order ==> a == b
  {
    if b.order < a.order {
      Pow2Mono(b.order, a.order);
    }
  }

  lemma BuddyFacts(max: nat, b: Block)
    requires InRange(max, b) && b.order < max
    ensures InRange(max, b.Buddy()) && b.Buddy().Buddy() == b && Disjoint(b, b.Buddy())
    ensures InRange(max, b.Parent()) && b.Buddy().Parent() == b.Parent()
    ensures Within(b, b.Parent()) && Within(b.Buddy(), b.Parent())
    ensures forall x :: b.Parent().Holds(x) <==> b.Holds(x) || b.Buddy().Holds(x)
    ensures b.Parent().start == if (b.start / Pow2(b.order)) % 2 == 0 then b.start else b.Buddy().start
  {
    var d, c := Pow2(b.order), b.Buddy();
    AlignedParity(b.start, b.order);
    Pow2Aligned(b.order, b.order);
    Pow2Mono(b.order, max);
    Pow2Aligned(b.order + 1, max);
    AlignedSum(b.start, d, b.order);
    AlignedParity(c.start, b.order);
    if (b.start / d) % 2 == 0 {
      if b.start + 2 * d > Pow2(max) {
        MultipleGap(b.start, Pow2(max), 2 * d);
      }
      if Aligned(c.start, b.order + 1) {
        MultipleGap(b.start, c.start, 2 * d);
      }
    }
  }

  lemma HalvesFacts(max: nat, b: Block)
    requires InRange(max, b) && b.order > 0
    ensures var l, r := Block(b.start, b.order - 1), Block(b.start + Pow2(b.order - 1), b.order - 1);
            && InRange(max, l) && InRange(max, r) && l.Buddy() == r && r.Buddy() == l
            && l.Parent() == b && r.Parent() == b && Disjoint(l, r)
            && forall x :: b.Holds(x) <==> l.Holds(x) || r.Holds(x)
  {
    AlignedDown(b.start, b.order - 1, b.order);
    AlignedParity(b.start, b.order - 1);
    BuddyFacts(max, Block(b.start, b.order - 1));
  }

  // ----- the free blocks are exactly the maximal aligned free runs -----

  /** Any aligned run of free pages lies inside one listed free block. */
  lemma {:induction false} FreeRunIsListed(max: nat, free: set<Block>, live: set<Block>, b: Block)
    requires Invariant(max, free, live) && InRange(max, b) && WhollyFree(live, b)
    ensures exists f :: f in free && Within(b, f)
    decreases b.order
  {
    assert Balanced(max, free, live);
    if b.order == 0 {
      assert Covered(free + live, b.start);
      var c :| c in free + live && c.Holds(b.start);
      assert Within(b, c);
    } else {
      HalvesFacts(max, b);
      var l, r := Block(b.start, b.order - 1), Block(b.start + Pow2(b.order - 1), b.order - 1);
      FreeRunIsListed(max, free, live, l);
      FreeRunIsListed(max, free, live, r);
      var f :| f in free && Within(l, f);
      var g :| g in free && Within(r, g);
      SameSpan(l, f);
      SameSpan(r, g);
      if f.order >= b.order {
        Nested(b, f);
      } else if g.order >= b.order {
        Nested(b, g);
      }
    }
  }

  /** A block is free in the sense of the lists iff it is a maximal aligned free run. */
  lemma FreeIffMaximal(max: nat, free: set<Block>, live: set<Block>, b: Block)
    requires Invariant(max, free, live)
    ensures b in free <==> Maximal(max, live, b)
  {
    assert Balanced(max, free, live);
    if b in free {
      if b.order < max {
        BuddyFacts(max, b);
        forall f | f in free
          ensures !Within(b.Parent(), f)
        {
          if Within(b, f) {
            SameSpan(b, f);
          }
          if Within(b.Parent(), b) {
            SameSpan(b.Parent(), b);
          }
        }
        if WhollyFree(live, b.Parent()) {
          FreeRunIsListed(max, free, live, b.Parent());
        }
      }
    } else if Maximal(max, live, b) {
      FreeRunIsListed(max, free, live, b);
      var f :| f in free && Within(b, f);
      SameSpan(b, f);
      BuddyFacts(max, b);
      Nested(b.Parent(), f);
      forall l | l in live
        ensures Disjoint(l, b.Parent())
      {
        assert Disjoint(l, f);
      }
    }
  }

  /** The free blocks depend only on which blocks are live, not on how that came about. */
  lemma FreeDeterminedByLive(max: nat, f1: set<Block>, f2: set<Block>, live: set<Block>)
    requires Invariant(max, f1, live) && Invariant(max, f2, live)
    ensures f1 == f2
  {
    forall b
      ensures b in f1 <==> b in f2
    {
      FreeIffMaximal(max, f1, live, b);
      FreeIffMaximal(max, f2, live, b);
    }
  }

  /** With nothing live, the heap is one block of the highest order. */
  lemma NothingLive(max: nat, free: set<Block>)
    requires Invariant(max, free, {})
    ensures free == {Block(0, max)}
  {
    assert InRange(max, Block(0, max));
    forall b
      ensures b in free <==> b == Block(0, max)
    {
      FreeIffMaximal(max, free, {}, b);
      if b.order == max && InRange(max, b) {
        assert b.start == 0;
      }
    }
  }

  // ----- the elementary steps; a block being worked on counts as live -----

  lemma InitialInvariant(max: nat)
    ensures Invariant(max, {Block(0, max)}, {})
  {
    var s := {Block(0, max)} + {};
    assert Block(0, max) in s;
    forall x | 0 <= x < Pow2(max)
      ensures Covered(s, x)
    {
      assert Block(0, max).Holds(x);
    }
  }

  lemma TakeStep(max: nat, free: set<Block>, live: set<Block>, b: Block)
    requires Invariant(max, free, live) && b in free
    ensures Invariant(max, free - {b}, live + {b})
  {
    assert Balanced(max, free, live);
    assert (free - {b}) + (live + {b}) == free + live;
  }

  /** A block in hand is aligned, in range and clear of the live blocks. */
  lemma HeldIsFree(max: nat, free: set<Block>, live: set<Block>, h: Block)
    requires Invariant(max, free, live + {h}) && h !in live
    ensures InRange(max, h) && WhollyFree(live, h)
  {
    assert Balanced(max, free, live + {h});
    assert h in free + (live + {h});
    forall l | l in live
      ensures Disjoint(l, h)
    {
      assert l in free + (live + {h});
    }
  }

  lemma TileSplit(max: nat, s: set<Block>, h: Block)
    requires Tiles(max, s) && h in s && h.order > 0
    ensures Tiles(max, s - {h} + {Block(h.start, h.order - 1), Block(h.start + Pow2(h.order - 1), h.order - 1)})
  {
    HalvesFacts(max, h);
    var l, r := Block(h.start, h.order - 1), Block(h.start + Pow2(h.order - 1), h.order - 1);
    var t := s - {h} + {l, r};
    forall b | b in s && b != h
      ensures Disjoint(b, l) && Disjoint(b, r)
    {
      assert Disjoint(b, h);
    }
    forall x | 0 <= x < Pow2(max)
      ensures Covered(t, x)
    {
      assert Covered(s, x);
      var b :| b in s && b.Holds(x);
      if b == h {
        assert l.Holds(x) || r.Holds(x);
        assert l in t && r in t;
      } else {
        assert b in t;
      }
    }
  }

  lemma TileMerge(max: nat, s: set<Block>, h: Block)
    requires Tiles(max, s) && h in s && h.order < max && h.Buddy() in s
    ensures Tiles(max, s - {h, h.Buddy()} + {h.Parent()})
  {
    BuddyFacts(max, h);
    var c, p := h.Buddy(), h.Parent();
    var t := s - {h, c} + {p};
    forall b | b in s && b != h && b != c
      ensures Disjoint(b, p)
    {
      assert Disjoint(b, h) && Disjoint(b, c);
      assert b.Holds(b.start);
      assert p.End() == p.start + 2 * h.Size();
    }
    forall x | 0 <= x < Pow2(max)
      ensures Covered(t, x)
    {
      assert Covered(s, x);
      var b :| b in s && b.Holds(x);
      if b == h || b == c {
        assert p in t && p.Holds(x);
      } else {
        assert b in t;
      }
    }
  }

  /** A tile of a tiling overlaps only itself. */
  lemma TileFresh(max: nat, s: set<Block>, h: Block, b: Block)
    requires Tiles(max, s) && h in s && Within(b, h) && b != h
    ensures b !in s
  {
    assert !Disjoint(b, h);
  }

  lemma SplitStep(max: nat, free: set<Block>, live: set<Block>, h: Block)
    requires Invariant(max, free, live + {h}) && h !in live && h.order > 0
    ensures var l, r := Block(h.start, h.order - 1), Block(h.start + Pow2(h.order - 1), h.order - 1);
            && Invariant(max, free + {r}, live + {l})
            && r !in free && l !in live && r !in live
  {
    assert Balanced(max, free, live + {h});
    HalvesFacts(max, h);
    var l, r := Block(h.start, h.order - 1), Block(h.start + Pow2(h.order - 1), h.order - 1);
    var s := free + (live + {h});
    TileSplit(max, s, h);
    assert (free + {r}) + (live + {l}) == s - {h} + {l, r};
    TileFresh(max, s, h, l);
    TileFresh(max, s, h, r);
    forall b | b in free + {r} && b.order < max
      ensures b.Buddy() !in free + {r}
    {
      if b != r && b.Buddy() == r {
        BuddyFacts(max, b);
      }
    }
  }

  lemma MergeStep(max: nat, free: set<Block>, live: set<Block>, h: Block)
    requires Invariant(max, free, live + {h}) && h !in live && h.order < max && h.Buddy() in free
    ensures Invariant(max, free - {h.Buddy()}, live + {h.Parent()}) && h.Parent() !in live
  {
    assert Balanced(max, free, live + {h});
    BuddyFacts(max, h);
    var s := free + (live + {h});
    TileMerge(max, s, h);
    assert (free - {h.Buddy()}) + (live + {h.Parent()}) == s - {h, h.Buddy()} + {h.Parent()};
    assert !Disjoint(h.Parent(), h);
  }

  lemma GiveStep(max: nat, free: set<Block>, live: set<Block>, h: Block)
    requires Invariant(max, free, live + {h}) && h !in live
    requires h.order == max || h.Buddy() !in free
    ensures Invariant(max, free + {h}, live)
  {
    assert Balanced(max, free, live + {h});
    assert (free + {h}) + live == free + (live + {h});
    forall b | b in free + {h} && b.order < max
      ensures b.Buddy() !in free + {h}
    {
      BuddyFacts(max, b);
    }
  }
}
