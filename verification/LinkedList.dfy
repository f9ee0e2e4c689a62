/** The circular doubly linked list of list.h.  Entries are numbered; next[e] and prev[e] are the links of
    entry e, and one entry, the head, belongs to no element. */
module LinkedList {

  /** Entry i of the ring made of the head and the listed entries; the head is at -1 and at |list|. */
  ghost function At(list: seq<nat>, head: nat, i: int): nat {
    if 0 <= i < |list| then list[i] else head
  }

  ghost predicate Entries(list: seq<nat>, head: nat, size: nat) {
    && head < size && (forall i :: 0 <= i < |list| ==> list[i] < size && list[i] != head)
    && (forall i, j :: 0 <= i < j < |list| ==> list[i] != list[j])
  }

  /** Following next from the head visits list and comes back to the head. */
  ghost predicate Forward(next: seq<nat>, list: seq<nat>, head: nat) {
    && Entries(list, head, |next|)
    && (forall i, j {:trigger At(list, head, i), At(list, head, j)} :: -1 <= i < j <= |list| && j == i + 1 ==>
          next[At(list, head, i)] == At(list, head, j))
  }

  /** The links spell out list in both directions. */
  ghost predicate Ring(next: seq<nat>, prev: seq<nat>, list: seq<nat>, head: nat) {
    && |next| == |prev| && Forward(next, list, head)
    && (forall i, j {:trigger At(list, head, i), At(list, head, j)} :: -1 <= i < j <= |list| && j == i + 1 ==>
          prev[At(list, head, j)] == At(list, head, i))
  }

  ghost function Inserted(list: seq<nat>, k: nat, e: nat): seq<nat>
    requires k <= |list|
  {
    list[..k] + [e] + list[k..]
  }

  ghost function Deleted(list: seq<nat>, k: nat): seq<nat>
    requires k < |list|
  {
    list[..k] + list[k + 1..]
  }

  lemma InsertedMembers(list: seq<nat>, k: nat, e: nat)
    requires k <= |list|
    ensures forall p :: p in Inserted(list, k, e) <==> p in list || p == e
  {
    assert list == list[..k] + list[k..];
  }

  lemma DeletedMembers(list: seq<nat>, head: nat, size: nat, k: nat)
    requires Entries(list, head, size) && k < |list|
    ensures forall p :: p in Deleted(list, k) <==> p in list && p != list[k]
  {
    assert list == list[..k] + [list[k]] + list[k + 1..];
    assert list[k] !in list[..k] && list[k] !in list[k + 1..];
  }

  lemma InsertAt(list: seq<nat>, head: nat, k: nat, e: nat, i: int)
    requires k <= |list|
    ensures At(Inserted(list, k, e), head, i)
            == if i < k then At(list, head, i) else if i == k then e else At(list, head, i - 1)
  {
  }

  lemma DeleteAt(list: seq<nat>, head: nat, k: nat, i: int)
    requires k < |list|
    ensures At(Deleted(list, k), head, i) == if i < k then At(list, head, i) else At(list, head, i + 1)
  {
  }

  /** Linking a new entry between two neighbours inserts it there. */
  lemma InsertRing(next: seq<nat>, prev: seq<nat>, list: seq<nat>, head: nat, k: nat, e: nat)
    requires Ring(next, prev, list, head) && k <= |list| && e < |next| && e != head && e !in list
    ensures var (p, n) := (At(list, head, k - 1), At(list, head, k));
            Ring(next[p := e][e := n], prev[n := e][e := p], Inserted(list, k, e), head)
  {
    var p, n := At(list, head, k - 1), At(list, head, k);
    var after := Inserted(list, k, e);
    var next', prev' := next[p := e][e := n], prev[n := e][e := p];
    forall i, j | -1 <= i < j <= |after| && j == i + 1
      ensures next'[At(after, head, i)] == At(after, head, j) && prev'[At(after, head, j)] == At(after, head, i)
    {
      InsertAt(list, head, k, e, i);
      InsertAt(list, head, k, e, j);
      InsertStep(next, prev, list, head, k, e, if i < k then i else i - 1);
    }
  }

  /** The links between other neighbours are not touched by an insertion. */
  lemma InsertStep(next: seq<nat>, prev: seq<nat>, list: seq<nat>, head: nat, k: nat, e: nat, i: int)
    requires Ring(next, prev, list, head) && k <= |list| && e < |next| && e != head && e !in list
    requires -1 <= i < |list|
    ensures var (p, n) := (At(list, head, k - 1), At(list, head, k));
            i != k - 1 ==>
              && next[p := e][e := n][At(list, head, i)] == At(list, head, i + 1)
              && prev[n := e][e := p][At(list, head, i + 1)] == At(list, head, i)
  {
    assert next[At(list, head, i)] == At(list, head, i + 1);
    if i != k - 1 {
      assert At(list, head, i) != At(list, head, k - 1);
      assert At(list, head, i + 1) != At(list, head, k);
    }
  }

  /** Linking the neighbours of an entry to each other deletes it. */
  lemma DeleteRing(next: seq<nat>, prev: seq<nat>, list: seq<nat>, head: nat, k: nat)
    requires Ring(next, prev, list, head) && k < |list|
    ensures var (p, n) := (At(list, head, k - 1), At(list, head, k + 1));
            && prev[list[k]] == p && next[list[k]] == n
            && Ring(next[p := n], prev[n := p], Deleted(list, k), head)
  {
    var p, n := At(list, head, k - 1), At(list, head, k + 1);
    var after := Deleted(list, k);
    var next', prev' := next[p := n], prev[n := p];
    assert At(list, head, k) == list[k];
    forall i, j | -1 <= i < j <= |after| && j == i + 1
      ensures next'[At(after, head, i)] == At(after, head, j) && prev'[At(after, head, j)] == At(after, head, i)
    {
      DeleteAt(list, head, k, i);
      DeleteAt(list, head, k, j);
      DeleteStep(next, prev, list, head, k, if i < k then i else i + 1);
    }
  }

  /** The links between other neighbours are not touched by a deletion. */
  lemma DeleteStep(next: seq<nat>, prev: seq<nat>, list: seq<nat>, head: nat, k: nat, i: int)
    requires Ring(next, prev, list, head) && k < |list| && -1 <= i < |list|
    ensures var (p, n) := (At(list, head, k - 1), At(list, head, k + 1));
            i != k - 1 && i != k ==>
              && next[p := n][At(list, head, i)] == At(list, head, i + 1)
              && prev[n := p][At(list, head, i + 1)] == At(list, head, i)
  {
    assert next[At(list, head, i)] == At(list, head, i + 1);
    if i != k - 1 && i != k {
      assert At(list, head, i) != At(list, head, k - 1);
      assert At(list, head, i + 1) != At(list, head, k + 1);
    }
  }

  /** The next links determine the list. */
  lemma {:induction false} ForwardUnique(next: seq<nat>, a: seq<nat>, b: seq<nat>, head: nat, i: nat)
    requires Forward(next, a, head) && Forward(next, b, head) && i <= |a| && i <= |b| && a[..i] == b[..i]
    ensures a == b
    decreases |a| - i
  {
    assert At(a, head, i - 1) == At(b, head, i - 1) by {
      assert i > 0 ==> a[..i][i - 1] == b[..i][i - 1];
    }
    assert At(a, head, i) == At(b, head, i);
    if i < |a| && i < |b| {
      assert a[..i + 1] == a[..i] + [a[i]] && b[..i + 1] == b[..i] + [b[i]];
      ForwardUnique(next, a, b, head, i + 1);
    } else {
      assert a == a[..i] && b == b[..i];
    }
  }

  lemma RingUnique(next: seq<nat>, prev: seq<nat>, list: seq<nat>, head: nat, other: seq<nat>)
    requires Forward(next, list, head)
    ensures Ring(next, prev, other, head) ==> other == list
  {
    if Ring(next, prev, other, head) {
      ForwardUnique(next, list, other, head, 0);
    }
  }

  /** A list on which some entry is its own predecessor is on no ring. */
  lemma NoRing(next: seq<nat>, prev: seq<nat>, list: seq<nat>, head: nat, k: nat)
    requires Forward(next, list, head) && k < |list| && |prev| == |next| && prev[list[k]] == list[k]
    ensures !WellLinked(next, prev, head)
  {
    assert At(list, head, k) == list[k] != At(list, head, k - 1);
    assert !Ring(next, prev, list, head);
    forall other {
      RingUnique(next, prev, list, head, other);
    }
  }

  ghost predicate WellLinked(next: seq<nat>, prev: seq<nat>, head: nat) {
    exists list :: Ring(next, prev, list, head)
  }
}
