/** Free memory as an address-sorted list of runs of pages, for the best-fit and first-fit allocators. */
module FitModel {

  /** len free pages beginning at start. */
  datatype Run = Run(start: nat, len: nat) {
    function End(): nat { start + len }
  }

  /** The runs are in address order and no two of them touch. */
  ghost predicate Separated(runs: seq<Run>) {
    forall i, j :: 0 <= i < j < |runs| ==> runs[i].End() < runs[j].start
  }

  ghost predicate Good(runs: seq<Run>, npage: nat) {
    Separated(runs) && forall i :: 0 <= i < |runs| ==> runs[i].len > 0 && runs[i].End() <= npage
  }

  ghost predicate FreePage(runs: seq<Run>, x: int) {
    exists i :: 0 <= i < |runs| && runs[i].start <= x < runs[i].End()
  }

  /** nr_free */
  function Total(runs: seq<Run>): nat {
    if runs == [] then 0 else runs[0].len + Total(runs[1..])
  }

  lemma {:induction false} TotalConcat(a: seq<Run>, b: seq<Run>)
    ensures Total(a + b) == Total(a) + Total(b)
  {
    if a == [] {
      assert a + b == b;
    } else {
      TotalConcat(a[1..], b);
      assert (a + b)[1..] == a[1..] + b;
    }
  }

  lemma TotalThree(a: seq<Run>, r: Run, b: seq<Run>)
    ensures Total(a + [r] + b) == Total(a) + r.len + Total(b)
  {
    TotalConcat(a + [r], b);
    TotalConcat(a, [r]);
    assert Total([r]) == r.len + Total([]);
  }

  lemma TotalSplit(runs: seq<Run>, k: nat)
    requires k < |runs|
    ensures Total(runs) == Total(runs[..k]) + runs[k].len + Total(runs[k + 1..])
  {
    assert runs == runs[..k] + [runs[k]] + runs[k + 1..];
    TotalThree(runs[..k], runs[k], runs[k + 1..]);
  }

  ghost predicate FreeStretch(runs: seq<Run>, p: nat, n: nat) {
    forall x :: p <= x < p + n ==> FreePage(runs, x)
  }

  /** Any stretch of free pages lies inside one listed run. */
  lemma {:induction false} StretchIsListed(runs: seq<Run>, npage: nat, p: nat, n: nat)
    requires Good(runs, npage) && n > 0 && FreeStretch(runs, p, n)
    ensures exists i :: 0 <= i < |runs| && runs[i].start <= p && p + n <= runs[i].End()
  {
    if n == 1 {
      assert FreePage(runs, p);
    } else {
      StretchIsListed(runs, npage, p, n - 1);
      var i :| 0 <= i < |runs| && runs[i].start <= p && p + n - 1 <= runs[i].End();
      assert FreePage(runs, p + n - 1);
      var j :| 0 <= j < |runs| && runs[j].start <= p + n - 1 < runs[j].End();
      assert i == j;
    }
  }

  /** r is a stretch of free pages with no free page on either side. */
  ghost predicate MaximalStretch(runs: seq<Run>, r: Run) {
    && r.len > 0 && FreeStretch(runs, r.start, r.len)
    && !FreePage(runs, r.start - 1) && !FreePage(runs, r.End())
  }

  /** The listed runs are exactly the maximal stretches of free pages. */
  lemma ListedIffMaximal(runs: seq<Run>, npage: nat, r: Run)
    requires Good(runs, npage)
    ensures r in runs <==> MaximalStretch(runs, r)
  {
    if r in runs {
      var k :| 0 <= k < |runs| && runs[k] == r;
      forall i | 0 <= i < |runs|
        ensures !(runs[i].start <= r.start - 1 < runs[i].End()) && !(runs[i].start <= r.End() < runs[i].End())
      {
        assert i < k || i == k || k < i;
      }
    }
    if MaximalStretch(runs, r) {
      StretchIsListed(runs, npage, r.start, r.len);
      var i :| 0 <= i < |runs| && runs[i].start <= r.start && r.End() <= runs[i].End();
      assert runs[i].start <= r.start - 1 ==> FreePage(runs, r.start - 1);
      assert r.End() < runs[i].End() ==> FreePage(runs, r.End());
      assert runs[i] == r;
    }
  }

  /** Which pages are free determines the list, whatever calls led to it. */
  lemma ListDeterminedByPages(a: seq<Run>, b: seq<Run>, npage: nat)
    requires Good(a, npage) && Good(b, npage) && forall x :: FreePage(a, x) <==> FreePage(b, x)
    ensures a == b
  {
    forall r
      ensures r in a <==> r in b
    {
      ListedIffMaximal(a, npage, r);
      ListedIffMaximal(b, npage, r);
    }
    SameMembers(a, b, npage);
  }

  lemma HasMember(a: seq<Run>)
    ensures a != [] ==> exists r :: r in a
  {
    assert a != [] ==> a[0] in a;
  }

  lemma TailMembers(a: seq<Run>)
    requires Separated(a) && a != []
    ensures forall r :: r in a[1..] <==> r in a && r != a[0]
  {
    assert a == [a[0]] + a[1..];
    assert forall j :: 0 <= j < |a| - 1 ==> a[1..][j] == a[j + 1];
  }

  lemma {:induction false} SameMembers(a: seq<Run>, b: seq<Run>, npage: nat)
    requires Good(a, npage) && Good(b, npage) && forall r :: r in a <==> r in b
    ensures a == b
    decreases |a|
  {
    if a != [] {
      assert a[0] in b;
      assert b[0] in a;
      assert a[0] == b[0];
      TailMembers(a);
      TailMembers(b);
      SameMembers(a[1..], b[1..], npage);
    } else {
      HasMember(b);
    }
  }

  // ----- concatenation -----

  lemma FreePageConcat(a: seq<Run>, b: seq<Run>, x: int)
    ensures FreePage(a + b, x) <==> FreePage(a, x) || FreePage(b, x)
  {
    var c := a + b;
    if FreePage(a, x) {
      var i :| 0 <= i < |a| && a[i].start <= x < a[i].End();
      assert c[i] == a[i];
    }
    if FreePage(b, x) {
      var i :| 0 <= i < |b| && b[i].start <= x < b[i].End();
      assert c[|a| + i] == b[i];
    }
  }

  lemma FreePageOne(r: Run, x: int)
    ensures FreePage([r], x) <==> r.start <= x < r.End()
  {
    assert r.start <= x < r.End() ==> [r][0].start <= x < [r][0].End();
  }

  /** The free pages of runs, part by part. */
  lemma FreePageParts(runs: seq<Run>, lo: nat, hi: nat, x: int)
    requires lo <= hi <= |runs|
    ensures FreePage(runs, x) <==>
            FreePage(runs[..lo], x) || FreePage(runs[lo..hi], x) || FreePage(runs[hi..], x)
  {
    assert runs == runs[..lo] + runs[lo..hi] + runs[hi..];
    FreePageConcat(runs[..lo] + runs[lo..hi], runs[hi..], x);
    FreePageConcat(runs[..lo], runs[lo..hi], x);
  }

  lemma FreePageThree(a: seq<Run>, b: seq<Run>, c: seq<Run>, x: int)
    ensures FreePage(a + b + c, x) <==> FreePage(a, x) || FreePage(b, x) || FreePage(c, x)
  {
    FreePageConcat(a + b, c, x);
    FreePageConcat(a, b, x);
  }

  lemma GoodConcat(a: seq<Run>, b: seq<Run>, npage: nat)
    requires Good(a, npage) && Good(b, npage)
    requires a != [] && b != [] ==> a[|a| - 1].End() < b[0].start
    ensures Good(a + b, npage)
  {
    forall i, j | 0 <= i < |a| && 0 <= j < |b|
      ensures a[i].End() < b[j].start
    {
      assert i < |a| - 1 ==> a[i].End() < a[|a| - 1].start;
      assert 0 < j ==> b[0].End() < b[j].start;
    }
  }

  lemma GoodPart(runs: seq<Run>, npage: nat, lo: nat, hi: nat)
    requires Good(runs, npage) && lo <= hi <= |runs|
    ensures Good(runs[lo..hi], npage)
  {
  }

  /** Replacing the runs lo .. hi by one run that fits between its neighbours. */
  lemma SpliceGood(runs: seq<Run>, npage: nat, lo: nat, r: Run, hi: nat)
    requires Good(runs, npage) && lo <= hi <= |runs| && r.len > 0 && r.End() <= npage
    requires (lo > 0 ==> runs[lo - 1].End() < r.start) && (hi < |runs| ==> r.End() < runs[hi].start)
    ensures Good(runs[..lo] + [r] + runs[hi..], npage)
  {
    GoodPart(runs, npage, 0, lo);
    GoodPart(runs, npage, hi, |runs|);
    GoodConcat(runs[..lo], [r], npage);
    GoodConcat(runs[..lo] + [r], runs[hi..], npage);
  }

  // ----- choice -----

  /** Run k is the lowest of the smallest runs that hold n pages. */
  ghost predicate BestFit(runs: seq<Run>, n: nat, k: nat) {
    BestBelow(runs, n, k, |runs|)
  }

  /** The same, among the first m runs. */
  ghost predicate BestBelow(runs: seq<Run>, n: nat, k: nat, m: nat)
    requires m <= |runs|
  {
    && k < m && n <= runs[k].len
    && forall j :: 0 <= j < m && n <= runs[j].len ==>
         runs[k].len <= runs[j].len && (runs[j].len == runs[k].len ==> k <= j)
  }

  ghost predicate NoneBelow(runs: seq<Run>, n: nat, m: nat)
    requires m <= |runs|
  {
    forall j :: 0 <= j < m ==> runs[j].len < n
  }

  /** One step of the best-fit search; size is the length of the best run so far, or more than any. */
  lemma BestStep(runs: seq<Run>, n: nat, k: nat, m: nat, size: nat)
    requires m < |runs| && n < size
    requires (NoneBelow(runs, n, m) && runs[m].len < size) || (BestBelow(runs, n, k, m) && size == runs[k].len)
    ensures runs[m].len == n ==> BestFit(runs, n, m)
    ensures n < runs[m].len < size ==> BestBelow(runs, n, m, m + 1)
    ensures !(n <= runs[m].len < size) && NoneBelow(runs, n, m) ==> NoneBelow(runs, n, m + 1)
    ensures !(n <= runs[m].len < size) && BestBelow(runs, n, k, m) ==> BestBelow(runs, n, k, m + 1)
  {
  }

  /** Run k is the lowest that holds n pages. */
  ghost predicate FirstFit(runs: seq<Run>, n: nat, k: nat) {
    k < |runs| && n <= runs[k].len && forall j :: 0 <= j < k ==> runs[j].len < n
  }

  ghost predicate NoneFits(runs: seq<Run>, n: nat) {
    forall j :: 0 <= j < |runs| ==> runs[j].len < n
  }

  /** No run holds n pages exactly when no n free pages are consecutive. */
  lemma NoneFitsMeaning(runs: seq<Run>, npage: nat, n: nat)
    requires Good(runs, npage) && n > 0
    ensures NoneFits(runs, n) <==> !exists p: nat :: FreeStretch(runs, p, n)
  {
    if p: nat :| FreeStretch(runs, p, n) {
      StretchIsListed(runs, npage, p, n);
    }
    if !NoneFits(runs, n) {
      var j :| 0 <= j < |runs| && n <= runs[j].len;
      assert FreeStretch(runs, runs[j].start, n);
    }
  }

  lemma {:induction false} LenAtMostTotal(runs: seq<Run>, k: nat)
    requires k < |runs|
    ensures runs[k].len <= Total(runs)
  {
    TotalSplit(runs, k);
  }

  // ----- allocation -----

  /** Take the first n pages of run k. */
  function Take(runs: seq<Run>, k: nat, n: nat): seq<Run>
    requires k < |runs| && n <= runs[k].len
  {
    if runs[k].len == n then runs[..k] + runs[k + 1..]
    else runs[..k] + [Run(runs[k].start + n, runs[k].len - n)] + runs[k + 1..]
  }

  lemma TakeGood(runs: seq<Run>, npage: nat, k: nat, n: nat)
    requires Good(runs, npage) && k < |runs| && 0 < n <= runs[k].len
    ensures Good(Take(runs, k, n), npage)
  {
    if runs[k].len == n {
      GoodPart(runs, npage, 0, k);
      GoodPart(runs, npage, k + 1, |runs|);
      GoodConcat(runs[..k], runs[k + 1..], npage);
    } else {
      SpliceGood(runs, npage, k, Run(runs[k].start + n, runs[k].len - n), k + 1);
    }
  }

  lemma TakeTotal(runs: seq<Run>, k: nat, n: nat)
    requires k < |runs| && n <= runs[k].len
    ensures Total(Take(runs, k, n)) == Total(runs) - n
  {
    TotalSplit(runs, k);
    if runs[k].len == n {
      TotalConcat(runs[..k], runs[k + 1..]);
    } else {
      TotalThree(runs[..k], Run(runs[k].start + n, runs[k].len - n), runs[k + 1..]);
    }
  }

  /** The other runs do not meet run k. */
  lemma OthersApart(runs: seq<Run>, npage: nat, k: nat, x: int)
    requires Good(runs, npage) && k < |runs| && runs[k].start <= x < runs[k].End()
    ensures !FreePage(runs[..k], x) && !FreePage(runs[k + 1..], x)
  {
  }

  /** Taking n pages removes exactly those pages. */
  lemma TakePages(runs: seq<Run>, npage: nat, k: nat, n: nat, x: int)
    requires Good(runs, npage) && k < |runs| && 0 < n <= runs[k].len
    ensures FreePage(Take(runs, k, n), x) <==>
            FreePage(runs, x) && !(runs[k].start <= x < runs[k].start + n)
  {
    FreePageParts(runs, k, k + 1, x);
    assert runs[k..k + 1] == [runs[k]];
    FreePageOne(runs[k], x);
    if runs[k].start <= x < runs[k].End() {
      OthersApart(runs, npage, k, x);
    }
    if runs[k].len == n {
      FreePageConcat(runs[..k], runs[k + 1..], x);
    } else {
      var rest := Run(runs[k].start + n, runs[k].len - n);
      FreePageThree(runs[..k], [rest], runs[k + 1..], x);
      FreePageOne(rest, x);
    }
  }

  // ----- release -----

  /** The pages base .. base + n lie in the gap before run k. */
  ghost predicate Gap(runs: seq<Run>, npage: nat, k: nat, base: nat, n: nat) {
    && k <= |runs| && 0 < n && base + n <= npage
    && (forall i :: 0 <= i < k ==> runs[i].End() <= base)
    && (forall i :: k <= i < |runs| ==> base + n <= runs[i].start)
  }

  predicate JoinsLeft(runs: seq<Run>, k: nat, base: nat)
    requires k <= |runs|
  {
    k > 0 && runs[k - 1].End() == base
  }

  predicate JoinsRight(runs: seq<Run>, k: nat, base: nat, n: nat)
    requires k <= |runs|
  {
    k < |runs| && base + n == runs[k].start
  }

  function Low(runs: seq<Run>, k: nat, base: nat): (lo: nat)
    requires k <= |runs|
    ensures lo <= k
  {
    if JoinsLeft(runs, k, base) then k - 1 else k
  }

  function High(runs: seq<Run>, k: nat, base: nat, n: nat): (hi: nat)
    requires k <= |runs|
    ensures k <= hi <= |runs|
  {
    if JoinsRight(runs, k, base, n) then k + 1 else k
  }

  /** The pages given back together with the runs that they touch. */
  function Joined(runs: seq<Run>, k: nat, base: nat, n: nat): Run
    requires k <= |runs|
  {
    var left := if JoinsLeft(runs, k, base) then runs[k - 1].len else 0;
    var right := if JoinsRight(runs, k, base, n) then runs[k].len else 0;
    Run(if JoinsLeft(runs, k, base) then runs[k - 1].start else base, left + n + right)
  }

  /** Give back n pages in the gap before run k, joined with the runs that they touch. */
  function Give(runs: seq<Run>, k: nat, base: nat, n: nat): seq<Run>
    requires k <= |runs|
  {
    runs[..Low(runs, k, base)] + [Joined(runs, k, base, n)] + runs[High(runs, k, base, n)..]
  }

  // ----- release as the source does it: insert, then merge with the neighbours -----

  function InsertRun(runs: seq<Run>, k: nat, r: Run): seq<Run>
    requires k <= |runs|
  {
    runs[..k] + [r] + runs[k..]
  }

  /** Join run i with the run after it. */
  function MergeRuns(runs: seq<Run>, i: nat): seq<Run>
    requires i + 1 < |runs|
  {
    runs[..i] + [Run(runs[i].start, runs[i].len + runs[i + 1].len)] + runs[i + 2..]
  }

  predicate Touch(runs: seq<Run>, i: int) {
    0 <= i < |runs| - 1 && runs[i].End() == runs[i + 1].start
  }

  lemma InsertRunTotal(runs: seq<Run>, k: nat, r: Run)
    requires k <= |runs|
    ensures Total(InsertRun(runs, k, r)) == Total(runs) + r.len
  {
    assert runs == runs[..k] + runs[k..];
    TotalConcat(runs[..k], runs[k..]);
    TotalThree(runs[..k], r, runs[k..]);
  }

  lemma MergeRunsTotal(runs: seq<Run>, i: nat)
    requires i + 1 < |runs|
    ensures Total(MergeRuns(runs, i)) == Total(runs)
  {
    TotalSplit(runs, i);
    assert runs[i + 1..][1..] == runs[i + 2..];
    TotalThree(runs[..i], Run(runs[i].start, runs[i].len + runs[i + 1].len), runs[i + 2..]);
  }

  /** Joining the inserted run with the one before it. */
  lemma {:induction false} StepLeft(runs: seq<Run>, npage: nat, k: nat, base: nat, n: nat)
    requires Good(runs, npage) && Gap(runs, npage, k, base, n)
    ensures var one := InsertRun(runs, k, Run(base, n));
            && one[k] == Run(base, n) && (Touch(one, k - 1) <==> JoinsLeft(runs, k, base))
            && (if Touch(one, k - 1) then MergeRuns(one, k - 1) else one)
               == runs[..Low(runs, k, base)] + [Left(runs, k, base, n)] + runs[k..]
  {
    var one := InsertRun(runs, k, Run(base, n));
    assert k > 0 ==> one[k - 1] == runs[k - 1];
    if JoinsLeft(runs, k, base) {
      assert one[..k - 1] == runs[..k - 1] && one[k + 1..] == runs[k..];
    }
  }

  /** The pages given back together with the run before them, if they touch it. */
  function Left(runs: seq<Run>, k: nat, base: nat, n: nat): Run
    requires k <= |runs|
  {
    if JoinsLeft(runs, k, base) then Run(runs[k - 1].start, runs[k - 1].len + n) else Run(base, n)
  }

  /** The joined run, from the left part. */
  lemma {:induction false} JoinedFromLeft(runs: seq<Run>, k: nat, base: nat, n: nat)
    requires k <= |runs|
    ensures var l := Left(runs, k, base, n);
            Joined(runs, k, base, n)
            == if JoinsRight(runs, k, base, n) then Run(l.start, l.len + runs[k].len) else l
  {
  }

  lemma {:induction false} MergeAt(a: seq<Run>, l: Run, b: seq<Run>)
    requires b != []
    ensures |a| + 1 < |a + [l] + b|
    ensures MergeRuns(a + [l] + b, |a|) == a + [Run(l.start, l.len + b[0].len)] + b[1..]
  {
    var all := a + [l] + b;
    assert all[|a|] == l && all[|a| + 1] == b[0];
    assert all[..|a|] == a && all[|a| + 2..] == b[1..];
  }

  /** Joining the result with the run after it. */
  lemma {:induction false} StepRight(runs: seq<Run>, npage: nat, k: nat, base: nat, n: nat)
    requires Good(runs, npage) && Gap(runs, npage, k, base, n)
    ensures var lo := Low(runs, k, base);
            var two := runs[..lo] + [Left(runs, k, base, n)] + runs[k..];
            && two[lo].End() == base + n && (Touch(two, lo) <==> JoinsRight(runs, k, base, n))
            && (if Touch(two, lo) then MergeRuns(two, lo) else two) == Give(runs, k, base, n)
  {
    var lo, l := Low(runs, k, base), Left(runs, k, base, n);
    var two := runs[..lo] + [l] + runs[k..];
    assert two[lo] == l && l.End() == base + n;
    assert k < |runs| ==> two[lo + 1] == runs[k];
    JoinedFromLeft(runs, k, base, n);
    if k < |runs| {
      MergeAt(runs[..lo], l, runs[k..]);
    }
  }

  /** Inserting a run and joining it with the runs it touches gives the pages back. */
  lemma {:induction false} GiveInSteps(runs: seq<Run>, npage: nat, k: nat, base: nat, n: nat)
    requires Good(runs, npage) && Gap(runs, npage, k, base, n)
    ensures var one := InsertRun(runs, k, Run(base, n));
            var two := if Touch(one, k - 1) then MergeRuns(one, k - 1) else one;
            var i := if Touch(one, k - 1) then k - 1 else k;
            var three := if Touch(two, i) then MergeRuns(two, i) else two;
            && one[k] == Run(base, n) && i < |two| && two[i].End() == base + n
            && two[i].start == (if Touch(one, k - 1) then runs[k - 1].start else base)
            && three == Give(runs, k, base, n)
  {
    StepLeft(runs, npage, k, base, n);
    StepRight(runs, npage, k, base, n);
  }

  /** Giving back pages leaves no two runs touching. */
  lemma GiveGood(runs: seq<Run>, npage: nat, k: nat, base: nat, n: nat)
    requires Good(runs, npage) && Gap(runs, npage, k, base, n)
    ensures Good(Give(runs, k, base, n), npage)
  {
    SpliceGood(runs, npage, Low(runs, k, base), Joined(runs, k, base, n), High(runs, k, base, n));
  }

  lemma {:induction false} TotalOne(r: Run)
    ensures Total([r]) == r.len
  {
    assert Total([r]) == r.len + Total([]);
  }

  /** The run before the gap and the run after it, where the pages touch them. */
  lemma {:induction false} TouchedTotal(runs: seq<Run>, k: nat, base: nat, n: nat)
    requires k <= |runs|
    ensures Total(runs[Low(runs, k, base)..High(runs, k, base, n)]) + n == Joined(runs, k, base, n).len
  {
    var lo, hi := Low(runs, k, base), High(runs, k, base, n);
    assert runs[lo..hi] == runs[lo..k] + runs[k..hi];
    TotalConcat(runs[lo..k], runs[k..hi]);
    if lo < k {
      assert runs[lo..k] == [runs[lo]];
      TotalOne(runs[lo]);
    }
    if k < hi {
      assert runs[k..hi] == [runs[k]];
      TotalOne(runs[k]);
    }
  }

  lemma {:induction false} TotalParts(runs: seq<Run>, lo: nat, hi: nat)
    requires lo <= hi <= |runs|
    ensures Total(runs) == Total(runs[..lo]) + Total(runs[lo..hi]) + Total(runs[hi..])
  {
    assert runs == runs[..lo] + runs[lo..hi] + runs[hi..];
    TotalConcat(runs[..lo] + runs[lo..hi], runs[hi..]);
    TotalConcat(runs[..lo], runs[lo..hi]);
  }

  lemma {:induction false} GiveTotal(runs: seq<Run>, k: nat, base: nat, n: nat)
    requires k <= |runs|
    ensures Total(Give(runs, k, base, n)) == Total(runs) + n
  {
    var lo, hi := Low(runs, k, base), High(runs, k, base, n);
    TotalThree(runs[..lo], Joined(runs, k, base, n), runs[hi..]);
    TouchedTotal(runs, k, base, n);
    TotalParts(runs, lo, hi);
  }

  /** The runs that the returned pages touch, and the pages themselves, make up the joined run. */
  lemma JoinedPages(runs: seq<Run>, npage: nat, k: nat, base: nat, n: nat, x: int)
    requires Good(runs, npage) && Gap(runs, npage, k, base, n)
    ensures var r := Joined(runs, k, base, n);
            r.start <= x < r.End() <==>
            FreePage(runs[Low(runs, k, base)..High(runs, k, base, n)], x) || base <= x < base + n
  {
    var lo, hi := Low(runs, k, base), High(runs, k, base, n);
    FreePageConcat(runs[lo..k], runs[k..hi], x);
    assert runs[lo..hi] == runs[lo..k] + runs[k..hi];
    if lo < k {
      assert runs[lo..k] == [runs[lo]];
      FreePageOne(runs[lo], x);
    }
    if k < hi {
      assert runs[k..hi] == [runs[k]];
      FreePageOne(runs[k], x);
    }
  }

  /** Giving back n pages adds exactly those pages. */
  lemma GivePages(runs: seq<Run>, npage: nat, k: nat, base: nat, n: nat, x: int)
    requires Good(runs, npage) && Gap(runs, npage, k, base, n)
    ensures FreePage(Give(runs, k, base, n), x) <==> FreePage(runs, x) || base <= x < base + n
  {
    var lo, hi, r := Low(runs, k, base), High(runs, k, base, n), Joined(runs, k, base, n);
    FreePageParts(runs, lo, hi, x);
    FreePageThree(runs[..lo], [r], runs[hi..], x);
    FreePageOne(r, x);
    JoinedPages(runs, npage, k, base, n, x);
  }

  /** The walk over the list stops in front of some entry, or the list is empty. */
  predicate OffTail(runs: seq<Run>, base: nat) {
    runs == [] || base < runs[|runs| - 1].start
  }

  /** What a release does to the list: above all listed runs the block is added twice and joined with nothing. */
  function Release(runs: seq<Run>, k: nat, base: nat, n: nat): seq<Run>
    requires k <= |runs|
  {
    if OffTail(runs, base) then Give(runs, k, base, n) else runs + [Run(base, n)]
  }

  lemma {:induction false} InsertLast(runs: seq<Run>, r: Run)
    ensures InsertRun(runs, |runs|, r) == runs + [r]
  {
  }

  lemma {:induction false} ReleaseTotal(runs: seq<Run>, k: nat, base: nat, n: nat)
    requires k <= |runs|
    ensures Total(Release(runs, k, base, n)) == Total(runs) + n
  {
    if OffTail(runs, base) {
      GiveTotal(runs, k, base, n);
    } else {
      TotalConcat(runs, [Run(base, n)]);
      assert Total([Run(base, n)]) == n + Total([]);
    }
  }

  /** Taking pages from run k and joining them with the rest again gives the same list. */
  lemma TakeThenJoin(runs: seq<Run>, npage: nat, k: nat, n: nat, j: nat)
    requires Good(runs, npage) && k < |runs| && 0 < n <= runs[k].len
    requires Gap(Take(runs, k, n), npage, j, runs[k].start, n)
    ensures Give(Take(runs, k, n), j, runs[k].start, n) == runs
  {
    var mid := Take(runs, k, n);
    TakeGood(runs, npage, k, n);
    GiveGood(mid, npage, j, runs[k].start, n);
    forall x
      ensures FreePage(Give(mid, j, runs[k].start, n), x) <==> FreePage(runs, x)
    {
      TakePages(runs, npage, k, n, x);
      GivePages(mid, npage, j, runs[k].start, n, x);
    }
    ListDeterminedByPages(Give(mid, j, runs[k].start, n), runs, npage);
  }

  /** Releasing what was allocated restores the list of runs; the walk comes to the tail exactly when the whole
      of a topmost run was taken and others are left. */
  lemma TakeThenRelease(runs: seq<Run>, npage: nat, k: nat, n: nat, j: nat)
    requires Good(runs, npage) && k < |runs| && 0 < n <= runs[k].len
    requires Gap(Take(runs, k, n), npage, j, runs[k].start, n)
    ensures Release(Take(runs, k, n), j, runs[k].start, n) == runs
    ensures OffTail(Take(runs, k, n), runs[k].start) <==> !(0 < k == |runs| - 1 && n == runs[k].len)
  {
    TakeThenJoin(runs, npage, k, n, j);
    if k == |runs| - 1 {
      assert runs == runs[..k] + [runs[k]];
    }
  }
}
