/** Whole runs of the best-fit and first-fit allocators in which the topmost page stays free. */
module FitRuns {
  import opened FitModel

  datatype Op = BestOp(n: nat) | FirstOp(n: nat) | GiveOp(base: nat, n: nat)

  /** The pages of a request to free are inside the memory and none of them is free. */
  ghost predicate Held(runs: seq<Run>, npage: nat, base: nat, n: nat) {
    n > 0 && base + n <= npage && forall x :: base <= x < base + n ==> !FreePage(runs, x)
  }

  /** The free runs, and whether the list of them is still linked in both directions. */
  datatype Memory = Memory(runs: seq<Run>, linked: bool)

  /** One call on a list that is linked.  An allocation takes the run its policy picks, or fails and changes
      nothing; a release above all listed runs joins nothing and leaves the list ill linked.  What calls on an
      ill-linked list would do is not described. */
  ghost predicate Turn(m: Memory, npage: nat, op: Op, after: Memory) {
    && m.linked
    && match op
       case BestOp(n) => n > 0 && after.linked && BestTurn(m.runs, n, after.runs)
       case FirstOp(n) => n > 0 && after.linked && FirstTurn(m.runs, n, after.runs)
       case GiveOp(base, n) =>
         && Held(m.runs, npage, base, n) && after.linked == OffTail(m.runs, base)
         && exists k :: Gap(m.runs, npage, k, base, n) && after.runs == Release(m.runs, k, base, n)
  }

  ghost predicate BestTurn(runs: seq<Run>, n: nat, after: seq<Run>) {
    (NoneFits(runs, n) && after == runs) || exists k :: BestFit(runs, n, k) && after == Take(runs, k, n)
  }

  ghost predicate FirstTurn(runs: seq<Run>, n: nat, after: seq<Run>) {
    (NoneFits(runs, n) && after == runs) || exists k :: FirstFit(runs, n, k) && after == Take(runs, k, n)
  }

  /** states lists the memory before the first call and after each. */
  ghost predicate Trace(states: seq<Memory>, ops: seq<Op>, npage: nat) {
    |states| == |ops| + 1 && forall i :: 0 <= i < |ops| ==> Turn(states[i], npage, ops[i], states[i + 1])
  }

  ghost predicate TopFree(runs: seq<Run>, npage: nat) {
    FreePage(runs, npage - 1)
  }

  /** Pages that are not free lie in a gap between the runs, so a legal release is always possible. */
  lemma GapExists(runs: seq<Run>, npage: nat, base: nat, n: nat)
    requires Good(runs, npage) && Held(runs, npage, base, n)
    ensures exists k :: Gap(runs, npage, k, base, n)
  {
    var k := Below(runs, npage, base);
    forall i | 0 <= i < k
      ensures runs[i].End() <= base
    {
      assert !FreePage(runs, base);
    }
    forall i | k <= i < |runs|
      ensures base + n <= runs[i].start
    {
      assert runs[i].start < base + n ==> FreePage(runs, runs[i].start);
    }
    assert Gap(runs, npage, k, base, n);
  }

  /** The number of runs that start below base. */
  lemma {:induction false} Below(runs: seq<Run>, npage: nat, base: nat) returns (k: nat)
    requires Good(runs, npage)
    ensures k <= |runs| && (forall i :: 0 <= i < k ==> runs[i].start < base)
    ensures forall i :: k <= i < |runs| ==> base <= runs[i].start
  {
    k := 0;
    while k < |runs| && runs[k].start < base
      invariant k <= |runs| && forall i :: 0 <= i < k ==> runs[i].start < base
    {
      k := k + 1;
    }
    forall i | k <= i < |runs|
      ensures base <= runs[i].start
    {
      assert k < i ==> runs[k].End() < runs[i].start;
    }
  }

  /** While the top page is free, no block given back lies above all listed runs: the walk over the list stops
      before its end, where it would add the block twice. */
  lemma NeverAtTail(runs: seq<Run>, npage: nat, base: nat, n: nat)
    requires Good(runs, npage) && TopFree(runs, npage) && Held(runs, npage, base, n)
    ensures runs != [] && base < runs[|runs| - 1].start
  {
    var i :| 0 <= i < |runs| && runs[i].start <= npage - 1 < runs[i].End();
    var last := runs[|runs| - 1];
    if i < |runs| - 1 {
      assert false;
    }
    assert !FreePage(runs, base);
    assert last.start <= base ==> base < last.End();
  }

  /** A call keeps the list in order unless it leaves it ill linked. */
  lemma {:induction false} TurnGood(m: Memory, npage: nat, op: Op, after: Memory)
    requires Good(m.runs, npage) && Turn(m, npage, op, after) && after.linked
    ensures Good(after.runs, npage)
  {
    match op
    case BestOp(n) =>
      if k :| BestFit(m.runs, n, k) && after.runs == Take(m.runs, k, n) {
        TakeGood(m.runs, npage, k, n);
      }
    case FirstOp(n) =>
      if k :| FirstFit(m.runs, n, k) && after.runs == Take(m.runs, k, n) {
        TakeGood(m.runs, npage, k, n);
      }
    case GiveOp(base, n) =>
      var k :| Gap(m.runs, npage, k, base, n) && after.runs == Release(m.runs, k, base, n);
      GiveGood(m.runs, npage, k, base, n);
  }

  /** In every run, every state in which the list is linked has it sorted, disjoint and fully joined; and only
      the last state of a run can be ill linked. */
  lemma {:induction false} TraceGood(states: seq<Memory>, ops: seq<Op>, npage: nat, i: nat)
    requires Trace(states, ops, npage) && Good(states[0].runs, npage) && i < |states| && states[i].linked
    ensures Good(states[i].runs, npage)
  {
    if i > 0 {
      assert Turn(states[i - 1], npage, ops[i - 1], states[i]);
      TraceGood(states, ops, npage, i - 1);
      TurnGood(states[i - 1], npage, ops[i - 1], states[i]);
    }
  }

  /** While the topmost page is free before a call, the call leaves the list linked. */
  lemma {:induction false} TurnLinked(m: Memory, npage: nat, op: Op, after: Memory)
    requires Good(m.runs, npage) && TopFree(m.runs, npage) && Turn(m, npage, op, after)
    ensures after.linked
  {
    if op.GiveOp? {
      NeverAtTail(m.runs, npage, op.base, op.n);
    }
  }

  /** In a run whose topmost page stays free, the list is linked, sorted, disjoint and joined in every state. */
  lemma {:induction false} TraceStaysLinked(states: seq<Memory>, ops: seq<Op>, npage: nat, i: nat)
    requires Trace(states, ops, npage) && Good(states[0].runs, npage) && states[0].linked && i < |states|
    requires forall j :: 0 <= j < i ==> TopFree(states[j].runs, npage)
    ensures states[i].linked && Good(states[i].runs, npage)
  {
    if i > 0 {
      TraceStaysLinked(states, ops, npage, i - 1);
      TurnLinked(states[i - 1], npage, ops[i - 1], states[i]);
      TurnGood(states[i - 1], npage, ops[i - 1], states[i]);
    }
  }

  /** The last call of a run gave back pages above all listed runs. */
  ghost predicate EndsAtTail(states: seq<Memory>, ops: seq<Op>)
    requires |states| == |ops| + 1
  {
    ops != [] && ops[|ops| - 1].GiveOp? && !OffTail(states[|ops| - 1].runs, ops[|ops| - 1].base)
  }

  /** A list comes out of a run ill linked exactly when the last call gave back pages above all listed runs. */
  lemma {:induction false} TraceLinkedIff(states: seq<Memory>, ops: seq<Op>, npage: nat)
    requires Trace(states, ops, npage) && states[0].linked
    ensures !states[|ops|].linked <==> EndsAtTail(states, ops)
  {
    if ops != [] {
      assert Turn(states[|ops| - 1], npage, ops[|ops| - 1], states[|ops|]);
    }
  }

  /** Among the first m runs there is a best one that fits, and a first one, unless none fits. */
  lemma {:induction false} Choices(runs: seq<Run>, n: nat, m: nat) returns (best: nat, first: nat)
    requires m <= |runs|
    ensures NoneBelow(runs, n, m) || (BestBelow(runs, n, best, m) && FirstFit(runs, n, first))
  {
    best, first := 0, 0;
    if m > 0 {
      best, first := Choices(runs, n, m - 1);
      var fits := n <= runs[m - 1].len;
      if NoneBelow(runs, n, m - 1) {
        if fits {
          best, first := m - 1, m - 1;
        }
      } else if fits && runs[m - 1].len < runs[best].len {
        best := m - 1;
      }
    }
  }

  /** Every legal request on a linked list has an outcome. */
  lemma {:induction false} TurnPossible(m: Memory, npage: nat, op: Op)
    requires m.linked && Good(m.runs, npage)
    requires match op case BestOp(n) => n > 0 case FirstOp(n) => n > 0
             case GiveOp(base, n) => Held(m.runs, npage, base, n)
    ensures exists after :: Turn(m, npage, op, after)
  {
    match op
    case BestOp(n) =>
      var best, first := Choices(m.runs, n, |m.runs|);
      var after := if NoneFits(m.runs, n) then m.runs else Take(m.runs, best, n);
      assert Turn(m, npage, op, Memory(after, true));
    case FirstOp(n) =>
      var best, first := Choices(m.runs, n, |m.runs|);
      var after := if NoneFits(m.runs, n) then m.runs else Take(m.runs, first, n);
      assert Turn(m, npage, op, Memory(after, true));
    case GiveOp(base, n) =>
      GapExists(m.runs, npage, base, n);
      var k :| Gap(m.runs, npage, k, base, n);
      assert Turn(m, npage, op, Memory(Release(m.runs, k, base, n), OffTail(m.runs, base)));
  }

  /** The lowest of the smallest is one run, and so is the lowest. */
  lemma {:induction false} TurnUnique(m: Memory, npage: nat, op: Op, a: Memory, b: Memory)
    requires Turn(m, npage, op, a) && Turn(m, npage, op, b)
    ensures a == b
  {
    match op
    case BestOp(n) =>
    case FirstOp(n) =>
    case GiveOp(base, n) =>
      var j :| Gap(m.runs, npage, j, base, n) && a.runs == Release(m.runs, j, base, n);
      var k :| Gap(m.runs, npage, k, base, n) && b.runs == Release(m.runs, k, base, n);
      OnePlace(m.runs, npage, j, k, base, n);
  }

  lemma {:induction false} OnePlace(runs: seq<Run>, npage: nat, j: nat, k: nat, base: nat, n: nat)
    requires Gap(runs, npage, j, base, n) && Gap(runs, npage, k, base, n)
    ensures j == k
  {
    assert j < k ==> runs[j].End() <= base;
    assert k < j ==> runs[k].End() <= base;
  }

  // ----- nr_free -----

  /** What a call does to the number of free pages. */
  ghost function Change(runs: seq<Run>, op: Op): int {
    match op
    case BestOp(n) => if NoneFits(runs, n) then 0 else -(n as int)
    case FirstOp(n) => if NoneFits(runs, n) then 0 else -(n as int)
    case GiveOp(_, n) => n
  }

  /** A served request takes n pages, a release adds n, also at the tail. */
  lemma {:induction false} TurnTotal(m: Memory, npage: nat, op: Op, after: Memory)
    requires Turn(m, npage, op, after)
    ensures Total(after.runs) == Total(m.runs) + Change(m.runs, op)
  {
    match op
    case BestOp(n) =>
      if k :| BestFit(m.runs, n, k) && after.runs == Take(m.runs, k, n) {
        TakeTotal(m.runs, k, n);
      }
    case FirstOp(n) =>
      if k :| FirstFit(m.runs, n, k) && after.runs == Take(m.runs, k, n) {
        TakeTotal(m.runs, k, n);
      }
    case GiveOp(base, n) =>
      var k :| Gap(m.runs, npage, k, base, n) && after.runs == Release(m.runs, k, base, n);
      ReleaseTotal(m.runs, k, base, n);
  }

  ghost function Net(states: seq<Memory>, ops: seq<Op>, i: nat): int
    requires i <= |ops| && i <= |states|
  {
    if i == 0 then 0 else Net(states, ops, i - 1) + Change(states[i - 1].runs, ops[i - 1])
  }

  /** Over a whole run no page is lost from the count or counted twice. */
  lemma {:induction false} TraceTotal(states: seq<Memory>, ops: seq<Op>, npage: nat, i: nat)
    requires Trace(states, ops, npage) && i < |states|
    ensures Total(states[i].runs) == Total(states[0].runs) + Net(states, ops, i)
  {
    if i > 0 {
      TraceTotal(states, ops, npage, i - 1);
      TurnTotal(states[i - 1], npage, ops[i - 1], states[i]);
    }
  }

  /** Giving back what was just allocated restores the runs; the list stays linked unless the whole of a topmost
      run was taken and other runs are left. */
  lemma {:induction false} TakeThenGive(m: Memory, npage: nat, n: nat, k: nat, mid: Memory, after: Memory)
    requires Good(m.runs, npage) && k < |m.runs| && 0 < n <= m.runs[k].len && mid == Memory(Take(m.runs, k, n), true)
    requires Turn(mid, npage, GiveOp(m.runs[k].start, n), after)
    ensures after.runs == m.runs
    ensures after.linked <==> !(0 < k == |m.runs| - 1 && n == m.runs[k].len)
  {
    var base := m.runs[k].start;
    var j :| Gap(mid.runs, npage, j, base, n) && after.runs == Release(mid.runs, j, base, n);
    TakeThenRelease(m.runs, npage, k, n, j);
  }

  /** The free pages. */
  ghost function FreePages(runs: seq<Run>, npage: nat): set<int> {
    set x | 0 <= x < npage && FreePage(runs, x)
  }

  ghost function Between(lo: int, hi: int): (s: set<int>)
    ensures forall x :: x in s <==> lo <= x < hi
    ensures lo <= hi ==> |s| == hi - lo
    decreases hi - lo
  {
    if lo < hi then {lo} + Between(lo + 1, hi) else {}
  }

  lemma {:induction false} FirstOrRest(runs: seq<Run>, x: int)
    requires runs != []
    ensures FreePage(runs, x) <==> runs[0].start <= x < runs[0].End() || FreePage(runs[1..], x)
  {
    assert runs == [runs[0]] + runs[1..];
    FreePageConcat([runs[0]], runs[1..], x);
    FreePageOne(runs[0], x);
  }

  /** The pages of the first run, and those of the others, which it does not meet. */
  lemma {:induction false} FreePagesParts(runs: seq<Run>, npage: nat)
    requires Good(runs, npage) && runs != []
    ensures FreePages(runs, npage) == Between(runs[0].start, runs[0].End()) + FreePages(runs[1..], npage)
    ensures Between(runs[0].start, runs[0].End()) !! FreePages(runs[1..], npage)
  {
    var r := runs[0];
    forall x
      ensures x in FreePages(runs, npage) <==> r.start <= x < r.End() || x in FreePages(runs[1..], npage)
      ensures r.start <= x < r.End() ==> x !in FreePages(runs[1..], npage)
    {
      FirstOrRest(runs, x);
      if r.start <= x < r.End() {
        OthersApart(runs, npage, 0, x);
      }
    }
  }

  /** nr_free is the number of free pages. */
  lemma {:induction false} TotalCounts(runs: seq<Run>, npage: nat)
    requires Good(runs, npage)
    ensures |FreePages(runs, npage)| == Total(runs)
  {
    if runs == [] {
      assert FreePages(runs, npage) == {};
    } else {
      GoodPart(runs, npage, 1, |runs|);
      TotalCounts(runs[1..], npage);
      FreePagesParts(runs, npage);
    }
  }
}
