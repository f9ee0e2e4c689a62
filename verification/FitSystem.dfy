/** The best-fit and first-fit page allocators on their intrusive free list, as the kernel runs them. */
module FitSystem {
  import opened FitModel
  import opened FitRuns
  import opened LinkedList
  import opened Options

  /** The entries of the free list: the first pages of the runs. */
  ghost function Starts(runs: seq<Run>): (s: seq<nat>)
    ensures |s| == |runs| && forall i :: 0 <= i < |runs| ==> s[i] == runs[i].start
  {
    seq(|runs|, i requires 0 <= i < |runs| => runs[i].start)
  }

  /** Exactly the first pages of runs are flagged, and their property is the length. */
  ghost predicate Heads(runs: seq<Run>, property: seq<nat>, flag: seq<bool>) {
    && |property| == |flag|
    && (forall i :: 0 <= i < |runs| ==> runs[i].start < |flag| && property[runs[i].start] == runs[i].len)
    && (forall p: nat :: p < |flag| ==> (flag[p] <==> p in Starts(runs)))
  }

  /** Entries below npage are pages; entry npage is the list head. */
  class FitAllocator {
    const next: array<nat>
    const prev: array<nat>
    const property: array<nat>
    const flag: array<bool>      // PG_property
    const reserved: array<bool>  // PG_reserved
    const npage: nat
    var nrFree: nat
    ghost var runs: seq<Run>

    ghost function Repr(): set<object> {
      {this, next, prev, property, flag, reserved}
    }

    ghost predicate Shape() {
      && next.Length == prev.Length == npage + 1 && property.Length == flag.Length == reserved.Length == npage
      && next != prev && next != property && prev != property && flag != reserved
    }

    /** Following next from the head visits the runs, whose first pages are marked; nothing is said of prev. */
    ghost predicate Walkable()
      reads Repr()
    {
      && Shape() && nrFree == Total(runs) && Forward(next[..], Starts(runs), npage)
      && Heads(runs, property[..], flag[..])
    }

    /** The links, flags and properties are those of the runs. */
    ghost predicate Linked()
      reads Repr()
    {
      && Shape() && nrFree == Total(runs)
      && Ring(next[..], prev[..], Starts(runs), npage)
      && Heads(runs, property[..], flag[..])
    }

    ghost predicate Valid()
      reads Repr()
    {
      Linked() && Good(runs, npage)
    }

    /** The pages as page_init leaves them, and best_fit_init. */
    constructor (n: nat)
      ensures Valid() && npage == n && runs == []
      ensures forall p :: 0 <= p < n ==> reserved[p]
      ensures fresh(Repr())
    {
      npage := n;
      next := new nat[n + 1](_ => n);
      prev := new nat[n + 1](_ => n);
      property := new nat[n](_ => 0);
      flag := new bool[n](_ => false);
      reserved := new bool[n](_ => true);
      nrFree, runs := 0, [];
    }

    /** __list_add */
    method ListAdd(e: nat, p: nat, n: nat)
      requires Shape() && e <= npage && p <= npage && n <= npage
      modifies next, prev
      ensures next[..] == old(next[..])[p := e][e := n]
      ensures prev[..] == old(prev[..])[n := e][e := p]
    {
      prev[n] := e;
      next[p] := e;
      next[e] := n;
      prev[e] := p;
    }

    /** __list_del */
    method ListDel(p: nat, n: nat)
      requires Shape() && p <= npage && n <= npage
      modifies next, prev
      ensures next[..] == old(next[..])[p := n] && prev[..] == old(prev[..])[n := p]
    {
      next[p] := n;
      prev[n] := p;
    }

    /** The search of best_fit_alloc_pages. */
    method SearchBest(n: nat) returns (page: Option<nat>, ghost k: nat)
      requires Walkable() && n > 0
      ensures page == None <==> NoneFits(runs, n)
      ensures page.Some? ==> BestFit(runs, n, k) && page.value == runs[k].start
    {
      page, k := None, 0;
      if n > nrFree {
        NoneFitsTotal(runs, n);
        return;
      }
      var le := next[npage];
      var minSize := nrFree + 1;
      ghost var i := 0;
      ghost var starts := Starts(runs);
      assert At(starts, npage, -1) == npage && At(starts, npage, 0) == le;
      while le != npage
        invariant i <= |runs| && le == At(starts, npage, i)
        invariant page == None ==> NoneBelow(runs, n, i) && minSize == nrFree + 1
        invariant page.Some? ==> BestBelow(runs, n, k, i) && page.value == runs[k].start && minSize == runs[k].len > n
        decreases |runs| - i
      {
        LenAtMostTotal(runs, i);
        BestStep(runs, n, k, i, minSize);
        assert le == runs[i].start;
        if property[le] == n {
          page, k := Some(le), i;
          return;
        } else if property[le] > n && property[le] < minSize {
          page, k := Some(le), i;
          minSize := property[le];
        }
        assert At(starts, npage, i + 1) == next[le];
        le := next[le];
        i := i + 1;
      }
    }

    /** The search of default_alloc_pages. */
    method SearchFirst(n: nat) returns (page: Option<nat>, ghost k: nat)
      requires Walkable() && n > 0
      ensures page == None <==> NoneFits(runs, n)
      ensures page.Some? ==> FirstFit(runs, n, k) && page.value == runs[k].start
    {
      page, k := None, 0;
      if n > nrFree {
        NoneFitsTotal(runs, n);
        return;
      }
      var le := next[npage];
      ghost var starts := Starts(runs);
      assert At(starts, npage, -1) == npage && At(starts, npage, 0) == le;
      while le != npage
        invariant k <= |runs| && le == At(starts, npage, k)
        invariant forall j :: 0 <= j < k ==> runs[j].len < n
        decreases |runs| - k
      {
        assert le == runs[k].start;
        if property[le] >= n {
          page := Some(le);
          return;
        }
        assert At(starts, npage, k + 1) == next[le];
        le := next[le];
        k := k + 1;
      }
    }

    /** Unlink entry k. */
    method Unlink(page: nat, ghost list: seq<nat>, ghost k: nat)
      requires Shape() && Ring(next[..], prev[..], list, npage) && k < |list| && page == list[k]
      modifies next, prev
      ensures Ring(next[..], prev[..], Deleted(list, k), npage)
    {
      DeleteRing(next[..], prev[..], list, npage, k);
      ListDel(prev[page], next[page]);
    }

    /** Link a new entry after entry p, which is entry k - 1 or the head. */
    method LinkAfter(e: nat, p: nat, ghost list: seq<nat>, ghost k: nat)
      requires Shape() && Ring(next[..], prev[..], list, npage) && k <= |list| && p == At(list, npage, k - 1)
      requires e < npage && e !in list
      modifies next, prev
      ensures Ring(next[..], prev[..], Inserted(list, k, e), npage)
    {
      NextOf(next[..], list, npage, k - 1);
      InsertRing(next[..], prev[..], list, npage, k, e);
      ListAdd(e, p, next[p]);
    }

    /** Unlink entry k and link e where it was. */
    method Substitute(page: nat, e: nat, ghost list: seq<nat>, ghost k: nat)
      requires Shape() && Ring(next[..], prev[..], list, npage) && k < |list| && page == list[k]
      requires e < npage && e !in Deleted(list, k)
      modifies next, prev
      ensures Ring(next[..], prev[..], Inserted(Deleted(list, k), k, e), npage)
    {
      PrevOf(next[..], prev[..], list, npage, k);
      DeleteAt(list, npage, k, k - 1);
      var p := prev[page];
      Unlink(page, list, k);
      LinkAfter(e, p, Deleted(list, k), k);
    }

    /** Make rest, n pages on, the head of what is left of the run at page. */
    method MoveHead(page: nat, n: nat)
      requires Shape() && page + n < npage && n <= property[page]
      modifies property, flag
      ensures property[..] == old(property[..])[page + n := old(property[page]) - n]
      ensures flag[..] == old(flag[..])[page + n := true][page := false]
    {
      property[page + n] := property[page] - n;
      flag[page + n] := true;
      flag[page] := false;
    }

    /** The page taken is all of run k. */
    method DetachWhole(page: nat, ghost k: nat)
      requires Valid() && k < |runs| && page == runs[k].start
      modifies this`nrFree, this`runs, next, prev, flag
      ensures Valid() && runs == Take(old(runs), k, old(runs)[k].len)
    {
      TakeWholeHeads(runs, npage, k, property[..], flag[..]);
      StartsDeleted(runs, k);
      TakeGood(runs, npage, k, runs[k].len);
      TakeTotal(runs, k, runs[k].len);
      Unlink(page, Starts(runs), k);
      nrFree := nrFree - property[page];
      flag[page] := false;
      runs := runs[..k] + runs[k + 1..];
    }

    /** The pages taken are the first n of run k; the rest takes its place in the list. */
    method DetachPart(page: nat, n: nat, ghost k: nat)
      requires Valid() && k < |runs| && page == runs[k].start && 0 < n < runs[k].len
      modifies this`nrFree, this`runs, next, prev, property, flag
      ensures Valid() && runs == Take(old(runs), k, n)
    {
      ghost var after := TakePart(runs, npage, k, n, property[..], flag[..]);
      Shrink(page, n, k, after);
      nrFree, runs := nrFree - n, after;
    }

    /** Put the rest of run k in the place of the run, in the list and in the descriptors. */
    method Shrink(page: nat, n: nat, ghost k: nat, ghost after: seq<Run>)
      requires Shape() && Ring(next[..], prev[..], Starts(runs), npage)
      requires k < |runs| && page == runs[k].start && page + n < npage && n <= property[page]
      requires page + n !in Deleted(Starts(runs), k)
      requires Starts(after) == Inserted(Deleted(Starts(runs), k), k, page + n)
      requires Heads(after, property[..][page + n := property[page] - n], flag[..][page + n := true][page := false])
      modifies next, prev, property, flag
      ensures Ring(next[..], prev[..], Starts(after), npage) && Heads(after, property[..], flag[..])
    {
      Substitute(page, page + n, Starts(runs), k);
      MoveHead(page, n);
    }

    /** The common end of both allocators: cut n pages off run k. */
    method Detach(page: nat, n: nat, ghost k: nat)
      requires Valid() && k < |runs| && page == runs[k].start && 0 < n <= runs[k].len
      modifies this`nrFree, this`runs, next, prev, property, flag
      ensures Valid() && runs == Take(old(runs), k, n)
    {
      if property[page] > n {
        DetachPart(page, n, k);
      } else {
        DetachWhole(page, k);
      }
    }

    /** best_fit_alloc_pages */
    method BestFitAlloc(n: nat) returns (page: Option<nat>, ghost k: nat)
      requires Valid() && n > 0
      modifies this`nrFree, this`runs, next, prev, property, flag
      ensures Valid()
      ensures page == None <==> NoneFits(old(runs), n)
      ensures page == None ==> runs == old(runs) && next[..] == old(next[..]) && prev[..] == old(prev[..])
      ensures page == None ==> property[..] == old(property[..]) && flag[..] == old(flag[..]) && nrFree == old(nrFree)
      ensures page.Some? ==>
                BestFit(old(runs), n, k) && page.value == old(runs)[k].start && runs == Take(old(runs), k, n)
    {
      page, k := SearchBest(n);
      if page.Some? {
        Detach(page.value, n, k);
      }
    }

    /** default_alloc_pages */
    method FirstFitAlloc(n: nat) returns (page: Option<nat>, ghost k: nat)
      requires Valid() && n > 0
      modifies this`nrFree, this`runs, next, prev, property, flag
      ensures Valid()
      ensures page == None <==> NoneFits(old(runs), n)
      ensures page == None ==> runs == old(runs) && next[..] == old(next[..]) && prev[..] == old(prev[..])
      ensures page == None ==> property[..] == old(property[..]) && flag[..] == old(flag[..]) && nrFree == old(nrFree)
      ensures page.Some? ==>
                FirstFit(old(runs), n, k) && page.value == old(runs)[k].start && runs == Take(old(runs), k, n)
    {
      page, k := SearchFirst(n);
      if page.Some? {
        Detach(page.value, n, k);
      }
    }

    /** The insertion walk of init_memmap and free_pages on a list that is not empty.  A page above every listed
        one is added after the last entry and then, as the walk goes on, once more after itself. */
    method WalkList(base: nat, ghost list: seq<nat>) returns (ghost k: nat)
      requires Shape() && Ring(next[..], prev[..], list, npage) && base < npage && base !in list && list != []
      requires forall i, j :: 0 <= i < j < |list| ==> list[i] < list[j]
      modifies next, prev
      ensures k <= |list| && (forall i :: 0 <= i < k ==> list[i] < base)
      ensures forall i :: k <= i < |list| ==> base < list[i]
      ensures k < |list| ==> Ring(next[..], prev[..], Inserted(list, k, base), npage)
      ensures k == |list| ==>
                && next[..] == old(next[..])[list[k - 1] := base][base := npage]
                && prev[..] == old(prev[..])[npage := base][base := base]
    {
      k := 0;
      NextOf(next[..], list, npage, -1);
      ghost var nx: seq<nat>, pv: seq<nat> := next[..], prev[..];
      ghost var last: nat := list[|list| - 1];
      ghost var added := 0;  // how often the walk has added base after an entry
      var le := next[npage];
      while le != npage
        invariant added <= 2 && k <= |list| && (forall i :: 0 <= i < k ==> list[i] < base)
        invariant added == 0 ==> k < |list| && le == list[k] && next[..] == nx && prev[..] == pv
        invariant added > 0 ==> k == |list| && next[..] == nx[last := base][base := npage]
        invariant added == 1 ==> le == base && prev[..] == pv[npage := base][base := last]
        invariant added == 2 ==> le == npage && prev[..] == pv[npage := base][base := base]
        decreases |list| - k, 2 - added
      {
        if added == 0 {
          NextOf(nx, list, npage, k);
          PrevOf(nx, pv, list, npage, k);
        }
        if base < le {
          InsertRing(nx, pv, list, npage, k, base);
          ListAdd(base, prev[le], le);
          break;
        } else if next[le] == npage {
          ListAdd(base, le, next[le]);
          added := added + 1;
        }
        le := next[le];
        k := if k < |list| then k + 1 else k;
      }
    }

    /** The insertion as a whole. */
    method InsertWalk(base: nat, ghost list: seq<nat>) returns (ghost k: nat)
      requires Shape() && Ring(next[..], prev[..], list, npage) && base < npage && base !in list
      requires forall i, j :: 0 <= i < j < |list| ==> list[i] < list[j]
      modifies next, prev
      ensures k <= |list| && (forall i :: 0 <= i < k ==> list[i] < base)
      ensures forall i :: k <= i < |list| ==> base < list[i]
      ensures k < |list| || list == [] ==> Ring(next[..], prev[..], Inserted(list, k, base), npage)
      ensures k == |list| > 0 ==>
                && next[..] == old(next[..])[list[k - 1] := base][base := npage]
                && prev[..] == old(prev[..])[npage := base][base := base]
    {
      NextOf(next[..], list, npage, -1);
      if next[npage] == npage {
        k := 0;
        InsertRing(next[..], prev[..], list, npage, 0, base);
        ListAdd(base, npage, next[npage]);
      } else {
        k := WalkList(base, list);
      }
    }

    /** Merge the run after run i into it: the properties add up and the second head is dropped. */
    method MergeAfter(p: nat, q: nat, ghost i: nat)
      requires Linked() && i + 1 < |runs| && p == runs[i].start && q == runs[i + 1].start
      modifies this`runs, next, prev, property, flag
      ensures Linked() && runs == MergeRuns(old(runs), i)
    {
      ghost var after := MergeHeads(runs, npage, i, property[..], flag[..]);
      property[p] := property[p] + property[q];
      flag[q] := false;
      Unlink(q, Starts(runs), i + 1);
      runs := after;
    }

    /** free_pages: join the block at base with the run before it.  When the walk has left base its own
        predecessor, base is not listed in both directions and nothing is joined. */
    method JoinBefore(base: nat, ghost i: nat, ghost listed: bool) returns (b: nat)
      requires Shape() && base < npage
      requires listed ==> Linked() && i < |runs| && runs[i].start == base
      requires !listed ==> prev[base] == base && property[base] > 0
      modifies this`runs, next, prev, property, flag
      ensures !listed ==> b == base && runs == old(runs) && unchanged(next, prev, property, flag)
      ensures listed ==> Linked()
      ensures listed ==> runs == if Touch(old(runs), i - 1) then MergeRuns(old(runs), i - 1) else old(runs)
      ensures listed ==> b == if Touch(old(runs), i - 1) then old(runs)[i - 1].start else base
    {
      b := base;
      if listed {
        PrevOf(next[..], prev[..], Starts(runs), npage, i);
      }
      var p := prev[base];
      if p != npage {
        if p + property[p] == base {
          MergeAfter(p, base, i - 1);
          b := p;
        }
      }
    }

    /** free_pages: join the block at base with the run after it. */
    method JoinAfter(base: nat, ghost i: nat, ghost listed: bool)
      requires Shape() && base < npage
      requires listed ==> Linked() && i < |runs| && runs[i].start == base
      requires !listed ==> next[base] == npage
      modifies this`runs, next, prev, property, flag
      ensures !listed ==> runs == old(runs) && unchanged(next, prev, property, flag)
      ensures listed ==> Linked()
      ensures listed ==> runs == if Touch(old(runs), i) then MergeRuns(old(runs), i) else old(runs)
    {
      if listed {
        NextOf(next[..], Starts(runs), npage, i);
      }
      var q := next[base];
      if q != npage {
        if base + property[base] == q {
          MergeAfter(base, q, i);
        }
      }
    }

    /** The walk, for a block of pages before run k. */
    method Insert(base: nat, n: nat, ghost k: nat) returns (ghost listed: bool)
      requires Shape() && Ring(next[..], prev[..], Starts(runs), npage)
      requires Good(runs, npage) && Gap(runs, npage, k, base, n) && base !in Starts(runs)
      modifies next, prev
      ensures listed <==> OffTail(runs, base)
      ensures listed ==> Ring(next[..], prev[..], Inserted(Starts(runs), k, base), npage)
      ensures !listed ==>
                && k == |runs| && Forward(next[..], Inserted(Starts(runs), k, base), npage)
                && prev[base] == base && next[base] == npage
    {
      ghost var list := Starts(runs);
      GapUnique(runs, npage, k, base, n);
      if runs != [] {
        TailForward(next[..], prev[..], list, npage, base);
      }
      ghost var at := InsertWalk(base, list);
      SamePlace(list, base, k, at);
      listed := k < |list| || list == [];
    }

    /** What init_memmap and free_pages do with a block whose pages have been reset: mark it, count it
        and walk the list to insert it.  It is listed properly unless it lies above every listed run. */
    method AddRun(base: nat, n: nat, ghost k: nat) returns (ghost listed: bool)
      requires Valid() && Gap(runs, npage, k, base, n)
      modifies this`nrFree, this`runs, next, prev, property, flag
      ensures listed <==> OffTail(old(runs), base)
      ensures runs == InsertRun(old(runs), k, Run(base, n))
      ensures listed ==> Linked()
      ensures !listed ==> Walkable() && k == |old(runs)|
      ensures !listed ==> prev[base] == base && next[base] == npage && property[base] == n
    {
      ghost var after := InsertHeads(runs, npage, k, base, n, property[..], flag[..]);
      Mark(base, n);
      listed := Insert(base, n, k);
      nrFree := nrFree + n;
      runs := after;
    }

    method Mark(base: nat, n: nat)
      requires Shape() && base < npage
      modifies property, flag
      ensures property[..] == old(property[..])[base := n] && flag[..] == old(flag[..])[base := true]
    {
      property[base] := n;
      flag[base] := true;
    }

    /** The page loop of init_memmap. */
    method ResetReserved(base: nat, n: nat)
      requires Valid() && base + n <= npage
      requires forall p :: base <= p < base + n ==> reserved[p] && !flag[p] && !FreePage(runs, p)
      modifies reserved, property
      ensures Valid()
      ensures forall p :: 0 <= p < npage ==> reserved[p] == (old(reserved[p]) && !(base <= p < base + n))
    {
      for p := base to base + n
        invariant Valid()
        invariant forall q :: 0 <= q < npage ==> reserved[q] == (old(reserved[q]) && !(base <= q < p))
      {
        assert reserved[p];
        HeadsElsewhere(runs, property[..], flag[..], p, 0);
        reserved[p] := false;
        property[p] := 0;
      }
    }

    /** The same, with what it means for the list as a whole. */
    method ListRun(base: nat, n: nat, ghost k: nat) returns (ghost listed: bool)
      requires Valid() && Gap(runs, npage, k, base, n)
      modifies this`nrFree, this`runs, next, prev, property, flag
      ensures listed <==> OffTail(old(runs), base)
      ensures listed <==> WellLinked(next[..], prev[..], npage)
      ensures runs == InsertRun(old(runs), k, Run(base, n))
      ensures if listed then Linked() else Walkable() && prev[base] == base && k == |old(runs)|
      ensures !listed ==> next[base] == npage && property[base] == n
    {
      listed := AddRun(base, n, k);
      if !listed {
        assert Starts(runs)[k] == base;
        NoRing(next[..], prev[..], Starts(runs), npage, k);
      }
    }

    /** best_fit_init_memmap and default_init_memmap; neighbouring runs are not joined. */
    method InitMemmap(base: nat, n: nat, ghost k: nat) returns (ghost listed: bool)
      requires Valid() && Gap(runs, npage, k, base, n)
      requires forall p :: base <= p < base + n ==> reserved[p]
      modifies Repr()
      ensures listed <==> OffTail(old(runs), base)
      ensures runs == InsertRun(old(runs), k, Run(base, n))
      ensures WellLinked(next[..], prev[..], npage) <==> OffTail(old(runs), base)
      ensures if listed then Linked() else Walkable() && prev[base] == base
      ensures listed && !Touch(runs, k - 1) && !Touch(runs, k) ==> Valid()
      ensures forall p :: 0 <= p < npage ==> reserved[p] == (old(reserved[p]) && !(base <= p < base + n))
    {
      GapUnflagged(runs, npage, k, base, n, property[..], flag[..]);
      ResetReserved(base, n);
      InsertGood(runs, npage, k, base, n);
      listed := ListRun(base, n, k);
    }

    /** The page loop of free_pages: its assertions hold, and it changes nothing. */
    method ClearPages(base: nat, n: nat, ghost k: nat)
      requires Valid() && Gap(runs, npage, k, base, n)
      requires forall p :: base <= p < base + n ==> !reserved[p]
      modifies reserved, flag
      ensures Valid() && reserved[..] == old(reserved[..])
    {
      GapUnflagged(runs, npage, k, base, n, property[..], flag[..]);
      for p := base to base + n
        invariant Valid() && reserved[..] == old(reserved[..]) && flag[..] == old(flag[..])
      {
        assert !old(reserved[p]) && !old(flag[p]);
        reserved[p], flag[p] := false, false;
      }
    }

    /** The part of free_pages after the insertion. */
    method Join(base: nat, n: nat, ghost before: seq<Run>, ghost k: nat, ghost listed: bool)
      requires Shape() && base < npage && Good(before, npage) && Gap(before, npage, k, base, n)
      requires runs == InsertRun(before, k, Run(base, n))
      requires listed ==> Linked()
      requires !listed ==> prev[base] == base && next[base] == npage && property[base] > 0
      modifies this`runs, next, prev, property, flag
      ensures listed ==> Valid() && runs == Give(before, k, base, n)
      ensures !listed ==> runs == old(runs) && unchanged(next, prev, property, flag)
    {
      GiveInSteps(before, npage, k, base, n);
      GiveGood(before, npage, k, base, n);
      var b := JoinBefore(base, k, listed);
      JoinAfter(b, if Touch(old(runs), k - 1) then k - 1 else k, listed);
    }

    /** Everything that free_pages does after its page loop. */
    method AddAndJoin(base: nat, n: nat, ghost k: nat) returns (ghost listed: bool)
      requires Valid() && Gap(runs, npage, k, base, n)
      modifies this`nrFree, this`runs, next, prev, property, flag
      ensures listed <==> OffTail(old(runs), base)
      ensures listed <==> WellLinked(next[..], prev[..], npage)
      ensures runs == Release(old(runs), k, base, n)
      ensures if listed then Valid() else Walkable() && prev[base] == base
    {
      InsertLast(runs, Run(base, n));
      listed := ListRun(base, n, k);
      ghost var after, before := next[..], prev[..];
      Join(base, n, old(runs), k, listed);
      if listed {
        assert Ring(next[..], prev[..], Starts(runs), npage);
      } else {
        assert next[..] == after && prev[..] == before;
      }
    }

    /** best_fit_free_pages and default_free_pages.  The block is joined to its neighbours and the list stays
        well formed exactly when the list is empty or some listed run lies above the block. */
    method FreePages(base: nat, n: nat, ghost k: nat)
      requires Valid() && Gap(runs, npage, k, base, n)
      requires forall p :: base <= p < base + n ==> !reserved[p]
      modifies Repr()
      ensures runs == Release(old(runs), k, base, n)
      ensures WellLinked(next[..], prev[..], npage) <==> OffTail(old(runs), base)
      ensures if OffTail(old(runs), base) then Valid() else Walkable() && prev[base] == base
      ensures reserved[..] == old(reserved[..])
    {
      ClearPages(base, n, k);
      ghost var listed := AddAndJoin(base, n, k);
    }
  }

  /** One call of the kernel, made on the allocator. */
  method Call(a: FitAllocator, op: Op, ghost m: Memory, ghost after: Memory)
    requires a.Valid() && m == Memory(a.runs, true) && Turn(m, a.npage, op, after)
    requires forall p :: 0 <= p < a.npage ==> !a.reserved[p]
    modifies a.Repr()
    ensures a.runs == after.runs && (after.linked <==> WellLinked(a.next[..], a.prev[..], a.npage))
    ensures if after.linked then a.Valid() else a.Walkable()
    ensures forall p :: 0 <= p < a.npage ==> !a.reserved[p]
  {
    ghost var k;
    match op
    case BestOp(n) =>
      var page;
      page, k := a.BestFitAlloc(n);
      TurnUnique(m, a.npage, op, Memory(a.runs, true), after);
    case FirstOp(n) =>
      var page;
      page, k := a.FirstFitAlloc(n);
      TurnUnique(m, a.npage, op, Memory(a.runs, true), after);
    case GiveOp(base, n) =>
      GapExists(a.runs, a.npage, base, n);
      k :| Gap(a.runs, a.npage, k, base, n);
      a.FreePages(base, n, k);
      TurnUnique(m, a.npage, op, Memory(a.runs, OffTail(m.runs, base)), after);
  }

  /** A whole run of calls.  The links, flags, sizes and nr_free are right at its end unless its last call gave back
      pages above all listed runs, which cannot happen if the topmost page was free before every call. */
  method Execute(a: FitAllocator, ops: seq<Op>, ghost states: seq<Memory>)
    requires a.Valid() && Trace(states, ops, a.npage) && states[0] == Memory(a.runs, true)
    requires forall p :: 0 <= p < a.npage ==> !a.reserved[p]
    modifies a.Repr()
    ensures a.runs == states[|ops|].runs
    ensures WellLinked(a.next[..], a.prev[..], a.npage) <==> states[|ops|].linked
    ensures WellLinked(a.next[..], a.prev[..], a.npage) <==> !EndsAtTail(states, ops)
    ensures if states[|ops|].linked then a.Valid() else a.Walkable()
    ensures (forall j :: 0 <= j < |ops| ==> TopFree(states[j].runs, a.npage)) ==> a.Valid()
  {
    var i := 0;
    while i < |ops|
      invariant i <= |ops| && a.runs == states[i].runs
      invariant WellLinked(a.next[..], a.prev[..], a.npage) <==> states[i].linked
      invariant if states[i].linked then a.Valid() else a.Walkable()
      invariant forall p :: 0 <= p < a.npage ==> !a.reserved[p]
    {
      assert Turn(states[i], a.npage, ops[i], states[i + 1]);
      Call(a, ops[i], states[i], states[i + 1]);
      i := i + 1;
    }
    TraceLinkedIff(states, ops, a.npage);
    if forall j :: 0 <= j < |ops| ==> TopFree(states[j].runs, a.npage) {
      TraceStaysLinked(states, ops, a.npage, |ops|);
    }
  }

  /** An allocator over n free pages. */
  method Boot(n: nat) returns (a: FitAllocator)
    requires n > 0
    ensures fresh(a) && fresh(a.Repr()) && a.Valid() && a.npage == n && a.runs == [Run(0, n)]
    ensures forall p :: 0 <= p < n ==> !a.reserved[p]
  {
    a := new FitAllocator(n);
    ghost var listed := a.InitMemmap(0, n, 0);
    assert a.runs == [Run(0, n)];
  }

  /** An allocator of two pages, both allocated. */
  method BothAllocated() returns (a: FitAllocator, first: Option<nat>, second: Option<nat>)
    ensures fresh(a) && fresh(a.Repr()) && a.Valid() && a.npage == 2 && a.runs == []
    ensures !a.reserved[0] && !a.reserved[1]
    ensures first == Some(0) && second == Some(1)
  {
    a := Boot(2);
    ghost var k;
    first, k := a.BestFitAlloc(1);
    assert a.runs == [Run(1, 1)];
    second, k := a.BestFitAlloc(1);
    assert a.runs == [];
  }

  /** Two pages given back in address order are both free, yet a request for two does not find them. */
  method TailLosesPages() returns (first: Option<nat>, second: Option<nat>, both: Option<nat>, free: nat)
    ensures first == Some(0) && second == Some(1)
    ensures both == None && free == 2
  {
    var a;
    a, first, second := BothAllocated();
    a.FreePages(0, 1, 0);
    assert a.runs == [Run(0, 1)];
    a.FreePages(1, 1, 1);
    assert a.runs == [Run(0, 1), Run(1, 1)];
    ghost var k;
    both, k := a.SearchBest(2);
    free := a.nrFree;
    TwoSingles();
  }

  lemma TwoSingles()
    ensures Total([Run(0, 1), Run(1, 1)]) == 2
  {
    assert [Run(0, 1), Run(1, 1)][1..] == [Run(1, 1)];
    assert Total([Run(1, 1)]) == 1 + Total([]);
  }

  lemma NextOf(next: seq<nat>, list: seq<nat>, head: nat, i: int)
    requires Forward(next, list, head) && -1 <= i < |list|
    ensures next[At(list, head, i)] == At(list, head, i + 1)
  {
  }

  lemma PrevOf(next: seq<nat>, prev: seq<nat>, list: seq<nat>, head: nat, i: int)
    requires Ring(next, prev, list, head) && 0 <= i <= |list|
    ensures prev[At(list, head, i)] == At(list, head, i - 1)
  {
    assert next[At(list, head, i - 1)] == At(list, head, i);
  }

  lemma StartsEntries(runs: seq<Run>, npage: nat)
    requires Good(runs, npage)
    ensures Entries(Starts(runs), npage, npage + 1)
  {
  }

  lemma StartsDeleted(runs: seq<Run>, k: nat)
    requires k < |runs|
    ensures Starts(runs[..k] + runs[k + 1..]) == Deleted(Starts(runs), k)
  {
  }

  lemma StartsReplaced(runs: seq<Run>, k: nat, r: Run)
    requires k < |runs|
    ensures Starts(runs[..k] + [r] + runs[k + 1..]) == Inserted(Deleted(Starts(runs), k), k, r.start)
  {
  }

  /** Taking the whole of run k: its first page is no longer a head. */
  lemma TakeWholeHeads(runs: seq<Run>, npage: nat, k: nat, property: seq<nat>, flag: seq<bool>)
    requires Good(runs, npage) && k < |runs| && |flag| == npage && Heads(runs, property, flag)
    ensures Heads(runs[..k] + runs[k + 1..], property, flag[runs[k].start := false])
  {
    StartsEntries(runs, npage);
    StartsDeleted(runs, k);
    DeletedMembers(Starts(runs), npage, npage + 1, k);
  }

  /** Taking part of run k: its rest has a head of its own. */
  lemma TakePartHeads(runs: seq<Run>, npage: nat, k: nat, r: Run, property: seq<nat>, flag: seq<bool>)
    requires Good(runs, npage) && k < |runs| && |flag| == npage && Heads(runs, property, flag)
    requires runs[k].start < r.start < runs[k].End()
    ensures r.start < npage && r.start !in Deleted(Starts(runs), k)
    ensures Heads(runs[..k] + [r] + runs[k + 1..], property[r.start := r.len],
                  flag[r.start := true][runs[k].start := false])
  {
    StartsEntries(runs, npage);
    StartsReplaced(runs, k, r);
    DeletedMembers(Starts(runs), npage, npage + 1, k);
    InsertedMembers(Deleted(Starts(runs), k), k, r.start);
    assert r.start !in Starts(runs);
  }

  lemma TakePart(runs: seq<Run>, npage: nat, k: nat, n: nat, property: seq<nat>, flag: seq<bool>)
    returns (after: seq<Run>)
    requires Good(runs, npage) && k < |runs| && 0 < n < runs[k].len && |flag| == npage && Heads(runs, property, flag)
    ensures after == Take(runs, k, n) && Good(after, npage) && Total(after) == Total(runs) - n
    ensures var rest := runs[k].start + n;
            && rest < npage && rest !in Deleted(Starts(runs), k)
            && Starts(after) == Inserted(Deleted(Starts(runs), k), k, rest)
            && Heads(after, property[rest := runs[k].len - n], flag[rest := true][runs[k].start := false])
  {
    var r := Run(runs[k].start + n, runs[k].len - n);
    after := runs[..k] + [r] + runs[k + 1..];
    TakePartHeads(runs, npage, k, r, property, flag);
    StartsReplaced(runs, k, r);
    TakeGood(runs, npage, k, n);
    TakeTotal(runs, k, n);
  }

  /** Merging run i + 1 into run i: what happens to the heads. */
  lemma MergeHeads(runs: seq<Run>, npage: nat, i: nat, property: seq<nat>, flag: seq<bool>) returns (after: seq<Run>)
    requires i + 1 < |runs| && Entries(Starts(runs), npage, npage + 1) && Heads(runs, property, flag)
    ensures after == MergeRuns(runs, i) && Total(after) == Total(runs)
    ensures Starts(after) == Deleted(Starts(runs), i + 1)
    ensures Heads(after, property[runs[i].start := runs[i].len + runs[i + 1].len], flag[runs[i + 1].start := false])
  {
    after := MergeRuns(runs, i);
    MergeRunsTotal(runs, i);
    assert Starts(after) == Deleted(Starts(runs), i + 1);
    DeletedMembers(Starts(runs), npage, npage + 1, i + 1);
    assert Starts(runs)[i] != Starts(runs)[i + 1];
    var property' := property[runs[i].start := runs[i].len + runs[i + 1].len];
    forall j | 0 <= j < |after|
      ensures property'[after[j].start] == after[j].len
    {
      assert after[j] == if j < i then runs[j] else if j == i then after[i] else runs[j + 1];
      var m := if j <= i then j else j + 1;
      assert Starts(runs)[m] == after[j].start;
      assert j != i ==> Starts(runs)[m] != Starts(runs)[i];
    }
  }

  /** Pages in a gap head no run. */
  lemma GapUnflagged(runs: seq<Run>, npage: nat, k: nat, base: nat, n: nat, property: seq<nat>, flag: seq<bool>)
    requires Good(runs, npage) && Gap(runs, npage, k, base, n) && |flag| == npage && Heads(runs, property, flag)
    ensures forall p :: base <= p < base + n ==> !flag[p] && p !in Starts(runs) && !FreePage(runs, p)
  {
  }

  /** The property of a page that heads no run does not matter. */
  lemma HeadsElsewhere(runs: seq<Run>, property: seq<nat>, flag: seq<bool>, p: nat, v: nat)
    requires Heads(runs, property, flag) && p < |flag| && !flag[p]
    ensures Heads(runs, property[p := v], flag)
  {
    assert forall i :: 0 <= i < |runs| ==> Starts(runs)[i] in Starts(runs);
  }

  lemma InsertStarts(runs: seq<Run>, k: nat, r: Run)
    requires k <= |runs|
    ensures Starts(InsertRun(runs, k, r)) == Inserted(Starts(runs), k, r.start)
  {
  }

  lemma InsertHeads(runs: seq<Run>, npage: nat, k: nat, base: nat, n: nat, property: seq<nat>, flag: seq<bool>)
    returns (after: seq<Run>)
    requires Good(runs, npage) && Gap(runs, npage, k, base, n) && |flag| == npage && Heads(runs, property, flag)
    ensures after == InsertRun(runs, k, Run(base, n)) && Total(after) == Total(runs) + n
    ensures base < npage && base !in Starts(runs) && Starts(after) == Inserted(Starts(runs), k, base)
    ensures Heads(after, property[base := n], flag[base := true])
  {
    after := InsertRun(runs, k, Run(base, n));
    InsertRunTotal(runs, k, Run(base, n));
    GapUnflagged(runs, npage, k, base, n, property, flag);
    InsertStarts(runs, k, Run(base, n));
    MarkedHeads(runs, after, k, base, n, property, flag);
  }

  lemma MarkedHeads(runs: seq<Run>, after: seq<Run>, k: nat, base: nat, n: nat, property: seq<nat>, flag: seq<bool>)
    requires Heads(runs, property, flag) && k <= |runs| && base < |flag| && base !in Starts(runs)
    requires after == InsertRun(runs, k, Run(base, n)) && Starts(after) == Inserted(Starts(runs), k, base)
    ensures Heads(after, property[base := n], flag[base := true])
  {
    InsertedMembers(Starts(runs), k, base);
    forall i | 0 <= i < |after|
      ensures after[i].start < |flag| && property[base := n][after[i].start] == after[i].len
    {
      if i != k {
        var j := if i < k then i else i - 1;
        assert after[i] == runs[j] && Starts(runs)[j] in Starts(runs);
      }
    }
  }

  lemma InsertGood(runs: seq<Run>, npage: nat, k: nat, base: nat, n: nat)
    requires Good(runs, npage) && Gap(runs, npage, k, base, n)
    ensures var after := InsertRun(runs, k, Run(base, n));
            !Touch(after, k - 1) && !Touch(after, k) ==> Good(after, npage)
  {
    var after := InsertRun(runs, k, Run(base, n));
    if !Touch(after, k - 1) && !Touch(after, k) {
      SpliceGood(runs, npage, k, Run(base, n), k);
    }
  }

  lemma SamePlace(list: seq<nat>, base: nat, k: nat, at: nat)
    requires k <= |list| && at <= |list|
    requires (forall i :: 0 <= i < k ==> list[i] < base) && (forall i :: k <= i < |list| ==> base < list[i])
    requires (forall i :: 0 <= i < at ==> list[i] < base) && (forall i :: at <= i < |list| ==> base < list[i])
    ensures at == k
  {
    if k < |list| {
      assert base < list[k];
    }
    if at < |list| {
      assert base < list[at];
    }
  }

  /** Address order leaves one place for a block. */
  lemma GapUnique(runs: seq<Run>, npage: nat, k: nat, base: nat, n: nat)
    requires Good(runs, npage) && Gap(runs, npage, k, base, n)
    ensures forall i :: 0 <= i < k ==> Starts(runs)[i] < base
    ensures forall i :: k <= i < |runs| ==> base < Starts(runs)[i]
    ensures k < |runs| || runs == [] <==> runs == [] || base < runs[|runs| - 1].start
  {
    assert forall i :: 0 <= i < |runs| ==> Starts(runs)[i] == runs[i].start < runs[i].End();
  }

  /** The links that the walk leaves when it has added base after the last entry and after itself. */
  lemma TailForward(next: seq<nat>, prev: seq<nat>, list: seq<nat>, head: nat, base: nat)
    requires Ring(next, prev, list, head) && list != [] && base < |next| && base != head && base !in list
    ensures Forward(next[list[|list| - 1] := base][base := head], Inserted(list, |list|, base), head)
  {
    InsertRing(next, prev, list, head, |list|, base);
  }

  lemma NoneFitsTotal(runs: seq<Run>, n: nat)
    requires Total(runs) < n
    ensures NoneFits(runs, n)
  {
    forall j | 0 <= j < |runs|
      ensures runs[j].len < n
    {
      LenAtMostTotal(runs, j);
    }
  }
}
