/** The skew heap on linked nodes, as merge, insert and remove rearrange it in place.
    The shape that the links spell out is given by a tree of the nodes themselves. */
module SkewHeap {
  import opened Bits
  import opened SkewTree
  import C = SkewCost

  class Entry {
    var parent: Entry?
    var left: Entry?
    var right: Entry?

    /** skew_heap_init */
    constructor ()
      ensures Models(this, Node(Leaf, this, Leaf)) && parent == null
    {
      parent, left, right := null, null, null;
    }
  }

  type Shape = Tree<Entry>

  /** The node at the root of a shape. */
  ghost function Root(t: Shape): Entry? {
    if t == Leaf then null else t.item
  }

  /** The child links below r spell out t, and each child's parent link points back. */
  ghost predicate Models(r: Entry?, t: Shape)
    reads Elements(t)
  {
    match t
    case Leaf => r == null
    case Node(lt, x, rt) =>
      && r == x && Models(x.left, lt) && Models(x.right, rt)
      && (lt != Leaf ==> lt.item.parent == x) && (rt != Leaf ==> rt.item.parent == x)
  }

  /** A heap is a distinct tree whose root has no parent. */
  ghost predicate IsHeap(r: Entry?, t: Shape)
    reads Elements(t)
  {
    Models(r, t) && Distinct(t) && (t != Leaf ==> t.item.parent == null)
  }

  /** Writes to other nodes leave a shape as it is. */
  twostate lemma {:induction false} ModelsFrame(t: Shape)
    requires old(Models(Root(t), t))
    requires forall n :: n in Elements(t) && old(allocated(n)) ==>
               n.left == old(n.left) && n.right == old(n.right) && n.parent == old(n.parent)
    ensures Models(Root(t), t)
  {
    if t != Leaf {
      ModelsFrame(t.left);
      ModelsFrame(t.right);
    }
  }

  /** Which of two roots comes out on top: the first only if it is strictly before the second. */
  function Winner(a: Entry?, b: Entry?, comp: Compare<Entry>): Entry? {
    if a == null then b else if b == null then a else if comp(a, b) == -1 then a else b
  }

  /** skew_heap_merge.  It never writes the parent link of the node that it returns. */
  method MergeNodes(a: Entry?, b: Entry?, comp: Compare<Entry>, ghost ta: Shape, ghost tb: Shape)
    returns (r: Entry?, ghost calls: nat)
    requires Models(a, ta) && Models(b, tb)
    requires Distinct(ta) && Distinct(tb) && Elements(ta) !! Elements(tb)
    modifies Elements(ta) + Elements(tb)
    ensures Models(r, Merge(ta, tb, comp)) && calls == C.Calls(ta, tb, comp) && r == Winner(a, b, comp)
    ensures r != null ==> r.parent == old(r.parent)
    decreases ta, tb
  {
    MergeDistinct(ta, tb, comp);
    if a == null {
      return b, 1;
    } else if b == null {
      return a, 1;
    }
    var l;
    label before:
    if comp(a, b) == -1 {
      var rest := a.left;
      MergeElements(ta.right, tb, comp);
      l, calls := MergeNodes(a.right, b, comp, ta.right, tb);
      assert Elements(ta.left) !! Elements(ta.right) + Elements(tb);
      ModelsFrame@before(ta.left);
      Attach(a, l, rest, Merge(ta.right, tb, comp), ta.left);
      return a, calls + 1;
    } else {
      var rest := b.left;
      MergeElements(ta, tb.right, comp);
      l, calls := MergeNodes(a, b.right, comp, ta, tb.right);
      assert Elements(tb.left) !! Elements(ta) + Elements(tb.right);
      ModelsFrame@before(tb.left);
      Attach(b, l, rest, Merge(ta, tb.right, comp), tb.left);
      return b, calls + 1;
    }
  }

  /** Make l and r the children of x; only l's parent link is written, r already is a child of x. */
  method Attach(x: Entry, l: Entry?, r: Entry?, ghost lt: Shape, ghost rt: Shape)
    requires Models(l, lt) && Models(r, rt) && Distinct(Node(lt, x, rt))
    requires rt != Leaf ==> rt.item.parent == x
    modifies x, Elements(lt)
    ensures Models(x, Node(lt, x, rt)) && x.parent == old(x.parent)
  {
    x.left := l;
    x.right := r;
    if l != null {
      l.parent := x;
    }
  }

  /** skew_heap_insert: b need not have been initialised. */
  method InsertNode(a: Entry?, b: Entry, comp: Compare<Entry>, ghost t: Shape)
    returns (r: Entry?, ghost calls: nat)
    requires IsHeap(a, t) && b !in Elements(t)
    modifies b, Elements(t)
    ensures IsHeap(r, Merge(t, Node(Leaf, b, Leaf), comp)) && calls == C.Calls(t, Node(Leaf, b, Leaf), comp)
    ensures r == b <==> t == Leaf || comp(t.item, b) != -1
    ensures r != b ==> r == a
  {
    label before:
    b.left, b.right, b.parent := null, null, null;
    ModelsFrame@before(t);
    MergeDistinct(t, Node(Leaf, b, Leaf), comp);
    r, calls := MergeNodes(a, b, comp, t, Node(Leaf, b, Leaf));
  }

  /** The node whose child b is. */
  ghost function ParentIn(t: Shape, b: Entry): Entry
    requires b in Elements(t) && b != t.item
  {
    var c := if b in Elements(t.left) then t.left else t.right;
    if Root(c) == b then t.item else ParentIn(c, b)
  }

  lemma {:induction false} ParentAbove(t: Shape, b: Entry)
    requires Distinct(t) && b in Elements(t) && b != t.item
    ensures ParentIn(t, b) in Elements(t) && ParentIn(t, b) !in Elements(Subtree(t, b))
  {
    var c := if b in Elements(t.left) then t.left else t.right;
    if c.item != b {
      ParentAbove(c, b);
    }
  }

  /** The links below a node of the heap spell out its subtree. */
  lemma {:induction false} SubtreeModels(t: Shape, b: Entry)
    requires Models(Root(t), t) && Distinct(t) && b in Elements(t)
    ensures Models(b, Subtree(t, b)) && Distinct(Subtree(t, b))
    ensures b != t.item ==> b.parent == ParentIn(t, b)
  {
    if b != t.item {
      SubtreeModels(if b in Elements(t.left) then t.left else t.right, b);
    }
  }

  /** The subtree at b of shape t is to be replaced by m. */
  datatype Edit = Edit(t: Shape, b: Entry, m: Shape)

  /** Redirecting the one link to b replaces the subtree at b. */
  twostate lemma {:induction false} Relinked(e: Edit)
    requires e.b in Elements(e.t) && e.b != e.t.item && Distinct(e.t) && old(Models(e.t.item, e.t))
    requires Models(Root(e.m), e.m) && (e.m != Leaf ==> e.m.item.parent == ParentIn(e.t, e.b))
    requires Elements(e.m) == Elements(Subtree(e.t, e.b)) - {e.b}
    requires forall n :: n in Elements(e.t) && n !in Elements(Subtree(e.t, e.b)) && old(allocated(n)) ==>
               var p := ParentIn(e.t, e.b);
               && n.parent == old(n.parent)
               && n.left == (if n == p && old(n.left) == e.b then Root(e.m) else old(n.left))
               && n.right == (if n == p && old(n.left) != e.b then Root(e.m) else old(n.right))
    ensures Models(e.t.item, Replace(e.t, e.b, e.m))
    decreases e.t
  {
    var lt, rt := e.t.left, e.t.right;
    ParentAbove(e.t, e.b);
    if e.b in Elements(lt) {
      assert ParentIn(e.t, e.b) !in Elements(rt) by {
        if lt.item != e.b {
          ParentAbove(lt, e.b);
        }
      }
      ModelsFrame(rt);
      if lt.item != e.b {
        ParentAbove(lt, e.b);
        Relinked(Edit(lt, e.b, e.m));
      }
    } else {
      assert ParentIn(e.t, e.b) !in Elements(lt) by {
        if rt.item != e.b {
          ParentAbove(rt, e.b);
        }
      }
      ModelsFrame(lt);
      if rt.item != e.b {
        ParentAbove(rt, e.b);
        Relinked(Edit(rt, e.b, e.m));
      }
    }
  }

  /** The last steps of skew_heap_remove: hang rep, of shape m, where b hung below p. */
  method Redirect(p: Entry, b: Entry, rep: Entry?, ghost m: Shape)
    requires Models(rep, m) && Distinct(m) && p !in Elements(m) && p != b
    modifies p, Elements(m)
    ensures Models(rep, m) && (m != Leaf ==> m.item.parent == p)
    ensures p.parent == old(p.parent)
    ensures p.left == if old(p.left) == b then rep else old(p.left)
    ensures p.right == if old(p.left) == b then old(p.right) else rep
  {
    if rep != null {
      rep.parent := p;
      assert Models(rep, m);
    }
    label relink:
    if p.left == b {
      p.left := rep;
    } else {
      p.right := rep;
    }
    ModelsFrame@relink(m);
  }

  /** skew_heap_remove */
  method RemoveNode(a: Entry, b: Entry, comp: Compare<Entry>, ghost t: Shape)
    returns (r: Entry?, ghost calls: nat)
    requires IsHeap(a, t) && b in Elements(t)
    modifies Elements(t)
    ensures IsHeap(r, Remove(t, b, comp))
    ensures calls == C.Calls(Subtree(t, b).left, Subtree(t, b).right, comp)
    ensures var rep, p := Winner(old(b.left), old(b.right), comp), old(b.parent);
            if b == a then r == rep
            else r == a && p != null && (if old(p.left) == b then p.left else p.right) == rep
  {
    ghost var s, m := Subtree(t, b), Merge(Subtree(t, b).left, Subtree(t, b).right, comp);
    label before:
    SubtreeModels(t, b);
    RemoveKeeps(t, b, comp);
    MergeElements(s.left, s.right, comp);
    MergeDistinct(s.left, s.right, comp);
    var p := b.parent;
    var rep;
    rep, calls := MergeNodes(b.left, b.right, comp, s.left, s.right);
    if p != null {
      ParentAbove(t, b);
      Redirect(p, b, rep, m);
      Relinked@before(Edit(t, b, m));
      r := a;
    } else {
      if rep != null {
        rep.parent := null;
        assert Models(rep, m);
      }
      r := rep;
    }
  }

  type Ops = seq<C.Op<Entry>>

  /** No operation inserts a node that is in the heap. */
  ghost predicate Legal(t: Shape, ops: Ops, comp: Compare<Entry>)
    decreases |ops|
  {
    ops != [] ==>
      (ops[0].Insert? ==> ops[0].x !in Elements(t)) && Legal(C.Apply(t, ops[0], comp), ops[1..], comp)
  }

  /** The nodes that are inserted. */
  ghost function Inserted(ops: Ops): set<Entry> {
    set op | op in ops && op.Insert? :: op.x
  }

  /** One operation on linked nodes. */
  method ApplyNode(a: Entry?, op: C.Op<Entry>, comp: Compare<Entry>, ghost t: Shape)
    returns (r: Entry?, ghost calls: nat)
    requires IsHeap(a, t) && (op.Insert? ==> op.x !in Elements(t))
    modifies Elements(t) + Inserted([op])
    ensures IsHeap(r, C.Apply(t, op, comp)) && calls == C.OpCalls(t, op, comp)
    ensures Elements(C.Apply(t, op, comp)) <= Elements(t) + Inserted([op])
  {
    match op
    case Insert(x) =>
      assert op in [op];
      MergeElements(t, Node(Leaf, x, Leaf), comp);
      r, calls := InsertNode(a, x, comp, t);
    case RemoveRoot =>
      if a == null {
        r, calls := a, 0;
      } else {
        MergeElements(t.left, t.right, comp);
        r, calls := RemoveNode(a, a, comp, t);
      }
  }

  /** A list of operations, from the empty heap: the calls of skew_heap_merge are O(m log m) in all. */
  method RunNodes(ops: Ops, comp: Compare<Entry>) returns (r: Entry?, ghost t: Shape, ghost calls: nat)
    requires Legal(Leaf, ops, comp)
    modifies Inserted(ops)
    ensures IsHeap(r, t) && t == C.Run(Leaf, ops, comp)
    ensures calls == C.RunCalls(Leaf, ops, comp) <= |ops| * (3 + 4 * OrderDown(|ops| + 1))
  {
    C.RunBound(ops, comp);
    r, t, calls := null, Leaf, 0;
    var i := 0;
    while i < |ops|
      invariant i <= |ops| && IsHeap(r, t) && Elements(t) <= Inserted(ops) && Legal(t, ops[i..], comp)
      invariant C.Run(t, ops[i..], comp) == C.Run(Leaf, ops, comp)
      invariant calls + C.RunCalls(t, ops[i..], comp) == C.RunCalls(Leaf, ops, comp)
    {
      assert ops[i..][0] == ops[i] && ops[i..][1..] == ops[i + 1..];
      assert Inserted([ops[i]]) <= Inserted(ops);
      ghost var made;
      r, made := ApplyNode(r, ops[i], comp, t);
      t, calls := C.Apply(t, ops[i], comp), calls + made;
      i := i + 1;
    }
  }
}
