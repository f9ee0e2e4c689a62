/** Skew heaps as trees: what merging and removal do to the elements and the order. */
module SkewTree {

  datatype Tree<+N> = Leaf | Node(left: Tree<N>, item: N, right: Tree<N>)

  /** The source's comparison function answers -1 for "strictly before". */
  type Compare<!N> = (N, N) -> int

  ghost predicate NotAfter<N>(comp: Compare<N>, x: N, y: N) {
    comp(y, x) != -1
  }

  /** On the elements of s the comparison is that of a total preorder. */
  ghost predicate Preorder<N>(comp: Compare<N>, s: set<N>) {
    && (forall x, y :: x in s && y in s ==> NotAfter(comp, x, y) || NotAfter(comp, y, x))
    && (forall x, y, z :: x in s && y in s && z in s && NotAfter(comp, x, y) && NotAfter(comp, y, z) ==>
          NotAfter(comp, x, z))
  }

  ghost function Elements<N>(t: Tree<N>): set<N> {
    match t
    case Leaf => {}
    case Node(l, x, r) => Elements(l) + {x} + Elements(r)
  }

  /** No element occurs twice. */
  ghost predicate Distinct<N>(t: Tree<N>) {
    match t
    case Leaf => true
    case Node(l, x, r) =>
      Distinct(l) && Distinct(r) && x !in Elements(l) && x !in Elements(r) && Elements(l) !! Elements(r)
  }

  /** No element comes before one above it. */
  ghost predicate Ordered<N>(t: Tree<N>, comp: Compare<N>) {
    match t
    case Leaf => true
    case Node(l, x, r) =>
      Ordered(l, comp) && Ordered(r, comp) && forall y :: y in Elements(l) + Elements(r) ==> NotAfter(comp, x, y)
  }

  function Size<N>(t: Tree<N>): nat {
    match t
    case Leaf => 0
    case Node(l, x, r) => Size(l) + 1 + Size(r)
  }

  /** skew_heap_merge */
  function Merge<N>(a: Tree<N>, b: Tree<N>, comp: Compare<N>): Tree<N>
    decreases a, b
  {
    if a == Leaf then b
    else if b == Leaf then a
    else if comp(a.item, b.item) == -1 then Node(Merge(a.right, b, comp), a.item, a.left)
    else Node(Merge(a, b.right, comp), b.item, b.left)
  }

  /** The first root stays on top only if it is strictly before the second: of two that compare equal, the second
      heap's wins. */
  lemma {:induction false} MergeRoot<N>(a: Tree<N>, b: Tree<N>, comp: Compare<N>)
    requires a != Leaf && b != Leaf
    ensures Merge(a, b, comp) != Leaf
    ensures Merge(a, b, comp).item == if comp(a.item, b.item) == -1 then a.item else b.item
  {
  }

  lemma {:induction false} MergeElements<N>(a: Tree<N>, b: Tree<N>, comp: Compare<N>)
    ensures Elements(Merge(a, b, comp)) == Elements(a) + Elements(b)
    ensures Size(Merge(a, b, comp)) == Size(a) + Size(b)
    decreases a, b
  {
    if a != Leaf && b != Leaf {
      if comp(a.item, b.item) == -1 {
        MergeElements(a.right, b, comp);
      } else {
        MergeElements(a, b.right, comp);
      }
    }
  }

  lemma {:induction false} MergeDistinct<N>(a: Tree<N>, b: Tree<N>, comp: Compare<N>)
    requires Distinct(a) && Distinct(b) && Elements(a) !! Elements(b)
    ensures Distinct(Merge(a, b, comp))
    decreases a, b
  {
    if a != Leaf && b != Leaf {
      if comp(a.item, b.item) == -1 {
        MergeElements(a.right, b, comp);
        MergeDistinct(a.right, b, comp);
      } else {
        MergeElements(a, b.right, comp);
        MergeDistinct(a, b.right, comp);
      }
    }
  }

  /** What is not after the root of an ordered heap is not after any of its elements. */
  lemma {:induction false} BelowAll<N>(t: Tree<N>, comp: Compare<N>, x: N, s: set<N>)
    requires t.Node? && Ordered(t, comp) && Preorder(comp, s) && x in s && Elements(t) <= s
    requires NotAfter(comp, x, t.item)
    ensures forall y :: y in Elements(t) ==> NotAfter(comp, x, y)
  {
    assert t.item in Elements(t);
  }

  /** Merging two ordered heaps gives an ordered heap. */
  lemma {:induction false} MergeOrdered<N>(a: Tree<N>, b: Tree<N>, comp: Compare<N>, s: set<N>)
    requires Ordered(a, comp) && Ordered(b, comp) && Preorder(comp, s) && Elements(a) <= s && Elements(b) <= s
    ensures Ordered(Merge(a, b, comp), comp)
    decreases a, b
  {
    if a != Leaf && b != Leaf {
      assert a.item in Elements(a) && b.item in Elements(b);
      if comp(a.item, b.item) == -1 {
        assert NotAfter(comp, a.item, b.item);
        BelowAll(b, comp, a.item, s);
        MergeElements(a.right, b, comp);
        MergeOrdered(a.right, b, comp, s);
      } else {
        assert NotAfter(comp, b.item, a.item);
        BelowAll(a, comp, b.item, s);
        MergeElements(a, b.right, comp);
        MergeOrdered(a, b.right, comp, s);
      }
    }
  }

  /** The root of an ordered heap is not after any element. */
  lemma {:induction false} RootFirst<N>(t: Tree<N>, comp: Compare<N>, x: N)
    requires Ordered(t, comp) && Preorder(comp, Elements(t)) && x in Elements(t)
    ensures t.Node? && NotAfter(comp, t.item, x)
  {
    assert NotAfter(comp, t.item, t.item) by {
      assert t.item in Elements(t);
    }
  }

  /** t with the subtree at b replaced by s. */
  ghost function Replace<N>(t: Tree<N>, b: N, s: Tree<N>): Tree<N>
    requires b in Elements(t)
  {
    if t.item == b then s
    else if b in Elements(t.left) then Node(Replace(t.left, b, s), t.item, t.right)
    else Node(t.left, t.item, Replace(t.right, b, s))
  }

  /** The subtree at b. */
  ghost function Subtree<N>(t: Tree<N>, b: N): (s: Tree<N>)
    requires b in Elements(t)
    ensures s.Node? && s.item == b && Elements(s) <= Elements(t)
  {
    if t.item == b then t else if b in Elements(t.left) then Subtree(t.left, b) else Subtree(t.right, b)
  }

  /** skew_heap_remove */
  ghost function Remove<N>(t: Tree<N>, b: N, comp: Compare<N>): Tree<N>
    requires b in Elements(t)
  {
    var s := Subtree(t, b);
    Replace(t, b, Merge(s.left, s.right, comp))
  }

  lemma {:induction false} SubtreeKeeps<N>(t: Tree<N>, b: N, comp: Compare<N>)
    requires b in Elements(t)
    ensures Distinct(t) ==> Distinct(Subtree(t, b))
    ensures Ordered(t, comp) ==> Ordered(Subtree(t, b), comp)
  {
    if t.item != b {
      SubtreeKeeps(if b in Elements(t.left) then t.left else t.right, b, comp);
    }
  }

  lemma {:induction false} ReplaceKeeps<N>(t: Tree<N>, b: N, s: Tree<N>, comp: Compare<N>)
    requires Distinct(t) && b in Elements(t) && Distinct(s) && Elements(s) == Elements(Subtree(t, b)) - {b}
    ensures Distinct(Replace(t, b, s)) && Elements(Replace(t, b, s)) == Elements(t) - {b}
    ensures Ordered(t, comp) && Ordered(s, comp) ==> Ordered(Replace(t, b, s), comp)
  {
    if t.item != b {
      ReplaceKeeps(if b in Elements(t.left) then t.left else t.right, b, s, comp);
    }
  }

  /** Removing b takes exactly b out of the heap and keeps it distinct and ordered. */
  lemma {:induction false} RemoveKeeps<N>(t: Tree<N>, b: N, comp: Compare<N>)
    requires Distinct(t) && b in Elements(t)
    ensures Distinct(Remove(t, b, comp)) && Elements(Remove(t, b, comp)) == Elements(t) - {b}
    ensures Ordered(t, comp) && Preorder(comp, Elements(t)) ==> Ordered(Remove(t, b, comp), comp)
  {
    var s := Subtree(t, b);
    SubtreeKeeps(t, b, comp);
    MergeElements(s.left, s.right, comp);
    MergeDistinct(s.left, s.right, comp);
    if Ordered(t, comp) && Preorder(comp, Elements(t)) {
      MergeOrdered(s.left, s.right, comp, Elements(t));
    }
    ReplaceKeeps(t, b, Merge(s.left, s.right, comp), comp);
  }

  /** Take the root until the heap is empty. */
  function Drained<N>(t: Tree<N>, comp: Compare<N>): (xs: seq<N>)
    decreases Size(t)
  {
    match t
    case Leaf => []
    case Node(l, x, r) =>
      MergeElements(l, r, comp);
      [x] + Drained(Merge(l, r, comp), comp)
  }

  ghost predicate Sorted<N>(xs: seq<N>, comp: Compare<N>) {
    forall i, j :: 0 <= i < j < |xs| ==> xs[i] != xs[j] && NotAfter(comp, xs[i], xs[j])
  }

  lemma {:induction false} DrainElements<N>(t: Tree<N>, comp: Compare<N>)
    ensures |Drained(t, comp)| == Size(t)
    ensures forall x :: x in Drained(t, comp) <==> x in Elements(t)
    decreases Size(t)
  {
    if t.Node? {
      MergeElements(t.left, t.right, comp);
      DrainElements(Merge(t.left, t.right, comp), comp);
    }
  }

  /** Draining an ordered heap lists its elements, each once, in order. */
  lemma {:induction false} DrainSorts<N>(t: Tree<N>, comp: Compare<N>, s: set<N>)
    requires Ordered(t, comp) && Distinct(t) && Preorder(comp, s) && Elements(t) <= s
    ensures |Drained(t, comp)| == Size(t) && forall x :: x in Drained(t, comp) <==> x in Elements(t)
    ensures Sorted(Drained(t, comp), comp)
    decreases Size(t)
  {
    DrainElements(t, comp);
    if t.Node? {
      var rest := Merge(t.left, t.right, comp);
      MergeElements(t.left, t.right, comp);
      MergeDistinct(t.left, t.right, comp);
      MergeOrdered(t.left, t.right, comp, s);
      DrainSorts(rest, comp, s);
      SortedCons(t.item, Drained(rest, comp), Elements(rest), comp);
    }
  }

  lemma {:induction false} SortedCons<N>(x: N, ys: seq<N>, s: set<N>, comp: Compare<N>)
    requires Sorted(ys, comp) && (forall y :: y in ys <==> y in s)
    requires forall y :: y in s ==> x != y && NotAfter(comp, x, y)
    ensures Sorted([x] + ys, comp)
  {
    assert forall j :: 0 <= j < |ys| ==> ys[j] in ys;
  }

  // ----- elements that compare equal -----

  /** Inserting one after the other. */
  function Inserted<N>(xs: seq<N>, comp: Compare<N>): Tree<N> {
    if xs == [] then Leaf else Merge(Inserted(xs[..|xs| - 1], comp), Node(Leaf, xs[|xs| - 1], Leaf), comp)
  }

  function Reversed<N>(xs: seq<N>): seq<N> {
    if xs == [] then [] else [xs[|xs| - 1]] + Reversed(xs[..|xs| - 1])
  }

  /** Elements none of which is strictly before another come out in the opposite order in which they went in. */
  lemma {:induction false} TiesAreStacked<N>(xs: seq<N>, comp: Compare<N>)
    requires forall x, y :: x in xs && y in xs ==> comp(x, y) != -1
    ensures Drained(Inserted(xs, comp), comp) == Reversed(xs)
    ensures xs != [] ==> Inserted(xs, comp).Node? && Inserted(xs, comp).item == xs[|xs| - 1]
    decreases |xs|
  {
    if xs != [] {
      var less, x := xs[..|xs| - 1], xs[|xs| - 1];
      assert forall y :: y in less ==> y in xs;
      TiesAreStacked(less, comp);
      var t := Inserted(less, comp);
      assert less != [] ==> t.item in xs;
      assert Merge(t, Node(Leaf, x, Leaf), comp) == Node(t, x, Leaf);
      assert Merge(t, Leaf, comp) == t;
    }
  }
}
