/** The amortised cost of skew heap operations, counted in calls of skew_heap_merge. */
module SkewCost {
  import opened Bits
  import opened SkewTree

  /** The calls that merging a and b makes, the outermost included. */
  function Calls<N>(a: Tree<N>, b: Tree<N>, comp: Compare<N>): nat
    decreases a, b
  {
    if a == Leaf || b == Leaf then 1
    else if comp(a.item, b.item) == -1 then 1 + Calls(a.right, b, comp)
    else 1 + Calls(a, b.right, comp)
  }

  predicate RightHeavy<N>(t: Tree<N>) {
    t.Node? && Size(t.right) > Size(t.left)
  }

  /** The potential: the number of right-heavy nodes. */
  function Potential<N>(t: Tree<N>): nat {
    match t
    case Leaf => 0
    case Node(l, x, r) => Potential(l) + (if RightHeavy(t) then 1 else 0) + Potential(r)
  }

  /** The nodes on the right spine that are not right-heavy. */
  function LightSpine<N>(t: Tree<N>): nat {
    match t
    case Leaf => 0
    case Node(l, x, r) => LightSpine(r) + (if RightHeavy(t) then 0 else 1)
  }

  lemma {:induction false} LightSpinePower<N>(t: Tree<N>)
    ensures Pow2(LightSpine(t)) <= Size(t) + 1
  {
    if t.Node? {
      LightSpinePower(t.right);
    }
  }

  /** The light nodes of the right spine are logarithmically few. */
  lemma {:induction false} LightSpineLog<N>(t: Tree<N>, n: nat)
    requires Size(t) + 1 <= n
    ensures LightSpine(t) <= OrderDown(n)
  {
    LightSpinePower(t);
    OrderDownGreatest(n, LightSpine(t));
  }

  /** A call on a right-heavy node is paid for by the potential it releases; any other by the spine. */
  lemma {:induction false} MergeBySpine<N>(a: Tree<N>, b: Tree<N>, comp: Compare<N>)
    ensures Calls(a, b, comp) + Potential(Merge(a, b, comp))
         <= Potential(a) + Potential(b) + 1 + 2 * LightSpine(a) + 2 * LightSpine(b)
    decreases a, b
  {
    if a != Leaf && b != Leaf {
      if comp(a.item, b.item) == -1 {
        MergeElements(a.right, b, comp);
        MergeBySpine(a.right, b, comp);
      } else {
        MergeElements(a, b.right, comp);
        MergeBySpine(a, b.right, comp);
      }
    }
  }

  lemma {:induction false} BoundSum(cost: nat, p: nat, q: nat, sa: nat, sb: nat, la: nat, lb: nat)
    requires cost <= p + q + 1 + 2 * sa + 2 * sb && sa <= la && sb <= lb
    ensures cost <= p + q + 1 + 2 * la + 2 * lb
  {
  }

  /** The amortised bound of one merge. */
  lemma {:induction false} MergeAmortised<N>(a: Tree<N>, b: Tree<N>, comp: Compare<N>)
    ensures Calls(a, b, comp) + Potential(Merge(a, b, comp))
         <= Potential(a) + Potential(b) + 1 + 2 * OrderDown(Size(a) + 1) + 2 * OrderDown(Size(b) + 1)
  {
    MergeBySpine(a, b, comp);
    LightSpineLog(a, Size(a) + 1);
    LightSpineLog(b, Size(b) + 1);
    BoundSum(Calls(a, b, comp) + Potential(Merge(a, b, comp)), Potential(a), Potential(b), LightSpine(a), LightSpine(b),
             OrderDown(Size(a) + 1), OrderDown(Size(b) + 1));
  }

  /** Insert a node, or remove the root. */
  datatype Op<N> = Insert(x: N) | RemoveRoot

  function Apply<N>(t: Tree<N>, op: Op<N>, comp: Compare<N>): Tree<N> {
    match op
    case Insert(x) => Merge(t, Node(Leaf, x, Leaf), comp)
    case RemoveRoot => if t == Leaf then t else Merge(t.left, t.right, comp)
  }

  function OpCalls<N>(t: Tree<N>, op: Op<N>, comp: Compare<N>): nat {
    match op
    case Insert(x) => Calls(t, Node(Leaf, x, Leaf), comp)
    case RemoveRoot => if t == Leaf then 0 else Calls(t.left, t.right, comp)
  }

  function RunCalls<N>(t: Tree<N>, ops: seq<Op<N>>, comp: Compare<N>): nat
    decreases |ops|
  {
    if ops == [] then 0 else OpCalls(t, ops[0], comp) + RunCalls(Apply(t, ops[0], comp), ops[1..], comp)
  }

  function Run<N>(t: Tree<N>, ops: seq<Op<N>>, comp: Compare<N>): Tree<N>
    decreases |ops|
  {
    if ops == [] then t else Run(Apply(t, ops[0], comp), ops[1..], comp)
  }

  lemma {:induction false} LogMono(m: nat, n: nat)
    requires 0 < m <= n
    ensures OrderDown(m) <= OrderDown(n)
  {
    OrderDownGreatest(n, OrderDown(m));
  }

  lemma {:induction false} InsertAmortised<N>(t: Tree<N>, x: N, comp: Compare<N>)
    ensures var s := Node(Leaf, x, Leaf);
            Calls(t, s, comp) + Potential(Merge(t, s, comp)) <= Potential(t) + 3 + 2 * OrderDown(Size(t) + 1)
  {
    var s := Node(Leaf, x, Leaf);
    MergeBySpine(t, s, comp);
    LightSpineLog(t, Size(t) + 1);
    assert LightSpine(s) == 1 && Potential(s) == 0;
  }

  lemma {:induction false} RemoveRootAmortised<N>(l: Tree<N>, r: Tree<N>, comp: Compare<N>, n: nat)
    requires Size(l) + 1 <= n && Size(r) + 1 <= n
    ensures Calls(l, r, comp) + Potential(Merge(l, r, comp)) <= Potential(l) + Potential(r) + 1 + 4 * OrderDown(n)
  {
    MergeBySpine(l, r, comp);
    LightSpineLog(l, n);
    LightSpineLog(r, n);
  }

  /** One operation on a heap of n nodes costs at most 3 + 4 log(n + 1) amortised. */
  lemma {:induction false} OpAmortised<N>(t: Tree<N>, op: Op<N>, comp: Compare<N>)
    ensures OpCalls(t, op, comp) + Potential(Apply(t, op, comp))
         <= Potential(t) + 3 + 4 * OrderDown(Size(t) + 1)
  {
    match op
    case Insert(x) => InsertAmortised(t, x, comp);
    case RemoveRoot =>
      if t.Node? {
        RemoveRootAmortised(t.left, t.right, comp, Size(t) + 1);
      }
  }

  lemma {:induction false} ApplySize<N>(t: Tree<N>, op: Op<N>, comp: Compare<N>)
    ensures Size(Apply(t, op, comp)) <= Size(t) + 1
  {
    match op
    case Insert(x) => MergeElements(t, Node(Leaf, x, Leaf), comp);
    case RemoveRoot =>
      if t.Node? {
        MergeElements(t.left, t.right, comp);
      }
  }

  lemma {:induction false} RunAmortised<N>(t: Tree<N>, ops: seq<Op<N>>, comp: Compare<N>, max: nat)
    requires Size(t) + |ops| <= max
    ensures RunCalls(t, ops, comp) <= Potential(t) + |ops| * (3 + 4 * OrderDown(max + 1))
    decreases |ops|
  {
    if ops != [] {
      OpAmortised(t, ops[0], comp);
      ApplySize(t, ops[0], comp);
      LogMono(Size(t) + 1, max + 1);
      RunAmortised(Apply(t, ops[0], comp), ops[1..], comp, max);
      var c := 3 + 4 * OrderDown(max + 1);
      assert |ops| * c == (|ops| - 1) * c + c;
    }
  }

  /** Any m insertions and root removals from the empty heap cost O(m log m) calls in all. */
  lemma {:induction false} RunBound<N>(ops: seq<Op<N>>, comp: Compare<N>)
    ensures RunCalls(Leaf, ops, comp) <= |ops| * (3 + 4 * OrderDown(|ops| + 1))
  {
    RunAmortised(Leaf, ops, comp, |ops|);
  }
}
