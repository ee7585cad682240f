/** The heap of link_simulator/min_queue.c.  It numbers slots from 0 but computes children as
    2i and 2i + 1 and the parent as i / 2, so slot 0 has itself and slot 1 as children and the
    test for "no child" is the child 0. */
module MinQueues {

  import opened Wire

  const SLOTS_PER_MALLOC := 20

  /** `cmp(a, b)` is "a > b" for some strict weak order. */
  ghost predicate StrictWeakOrder<T(!new)>(cmp: (T, T) -> bool) {
    (forall a :: !cmp(a, a)) &&
    (forall a, b, c :: cmp(a, b) && cmp(b, c) ==> cmp(a, c)) &&
    (forall a, b, c :: !cmp(a, b) && !cmp(b, c) ==> !cmp(a, c))
  }

  function Parent(i: nat): (p: nat)
    ensures i > 0 ==> p < i
  {
    i / 2
  }

  /** No slot but the root is smaller than its parent. */
  ghost predicate Heap<T(!new)>(cmp: (T, T) -> bool, s: seq<T>) {
    forall i, p :: 1 <= i < |s| && p == Parent(i) ==> !cmp(s[p], s[i])
  }

  /** The number of binary digits of `n`. */
  function BitLength(n: nat): nat {
    if n == 0 then 0 else 1 + BitLength(n / 2)
  }

  function Power2(k: nat): nat {
    if k == 0 then 1 else 2 * Power2(k - 1)
  }

  lemma {:induction false} BitLengthIsLogarithmic(n: nat)
    requires n > 0
    ensures Power2(BitLength(n) - 1) <= n < Power2(BitLength(n))
  {
    if n > 1 {
      BitLengthIsLogarithmic(n / 2);
    }
  }

  lemma BitLengthOfHalf(n: nat)
    requires n > 0
    ensures BitLength(Parent(n)) == BitLength(n) - 1
  {
  }

  lemma {:induction false} BitLengthMonotone(a: nat, b: nat)
    requires a <= b
    ensures BitLength(a) <= BitLength(b)
  {
    if a > 0 {
      BitLengthMonotone(a / 2, b / 2);
    }
  }

  lemma {:induction false} RootIsMinimal<T(!new)>(cmp: (T, T) -> bool, s: seq<T>, i: nat)
    requires StrictWeakOrder(cmp) && Heap(cmp, s) && i < |s|
    ensures !cmp(s[0], s[i])
    decreases i
  {
    if i > 0 {
      RootIsMinimal(cmp, s, Parent(i));
      assert !cmp(s[Parent(i)], s[i]);
    }
  }

  // ---------- Sifting up ----------

  /** `s` with the value `v` put into slot `i`: the state of minq_push's loop, which leaves a hole
      at `i`, as a heap whose only possible fault is there. */
  ghost predicate HeapButUp<T(!new)>(cmp: (T, T) -> bool, s: seq<T>, i: nat) {
    i < |s| &&
    (forall j, p :: 1 <= j < |s| && j != i && p == Parent(j) ==> !cmp(s[p], s[j])) &&
    (forall j {:trigger s[j]} :: 1 <= j < |s| && Parent(j) == i && i > 0 ==> !cmp(s[Parent(i)], s[j]))
  }

  function Swap<T>(s: seq<T>, i: nat, j: nat): (t: seq<T>)
    requires i < |s| && j < |s|
    ensures |t| == |s|
  {
    s[i := s[j]][j := s[i]]
  }

  /** The same elements, each as often. */
  ghost predicate SameItems<T(!new)>(s: seq<T>, t: seq<T>) {
    multiset(s) == multiset(t)
  }

  lemma SameAsItself<T(!new)>(s: seq<T>)
    ensures SameItems(s, s)
  {
  }

  lemma SwapKeepsItems<T(!new)>(s: seq<T>, i: nat, j: nat, t: seq<T>)
    requires i < |s| && j < |s| && SameItems(s, t)
    ensures SameItems(Swap(s, i, j), t)
  {
  }

  lemma SiftUpStep<T(!new)>(cmp: (T, T) -> bool, s: seq<T>, i: nat)
    requires StrictWeakOrder(cmp) && HeapButUp(cmp, s, i) && i > 0 && cmp(s[Parent(i)], s[i])
    ensures HeapButUp(cmp, Swap(s, i, Parent(i)), Parent(i))
  {
    var p, t := Parent(i), Swap(s, i, Parent(i));
    forall j, q | 1 <= j < |t| && j != p && q == Parent(j)
      ensures !cmp(t[q], t[j])
    {
      if j == i {
      } else if Parent(j) == i {
        assert t[j] == s[j];
      } else if Parent(j) == p {
        assert t[j] == s[j] && !cmp(s[p], s[j]);
      } else {
        assert t[j] == s[j];
      }
    }
    forall j | 1 <= j < |t| && Parent(j) == p && p > 0 && j != p
      ensures !cmp(t[Parent(p)], t[j])
    {
      assert !cmp(s[Parent(p)], s[p]);
      if j != i {
        assert !cmp(s[p], s[j]);
      }
    }
  }

  lemma SiftUpDone<T(!new)>(cmp: (T, T) -> bool, s: seq<T>, i: nat)
    requires HeapButUp(cmp, s, i) && (i == 0 || !cmp(s[Parent(i)], s[i]))
    ensures Heap(cmp, s)
  {
  }

  lemma SiftUpStart<T(!new)>(cmp: (T, T) -> bool, s: seq<T>, v: T)
    requires Heap(cmp, s)
    ensures HeapButUp(cmp, s + [v], |s|)
  {
  }

  // ---------- Sifting down ----------

  /** A heap but for the order between slot `i` and its children. */
  ghost predicate HeapButDown<T(!new)>(cmp: (T, T) -> bool, s: seq<T>, i: nat) {
    (forall j, p :: 1 <= j < |s| && p == Parent(j) && p != i ==> !cmp(s[p], s[j])) &&
    (forall j {:trigger s[j]} :: 1 <= j < |s| && Parent(j) == i && i > 0 ==> !cmp(s[Parent(i)], s[j]))
  }

  /** `c` is a child of `i` that no other child is smaller than. */
  ghost predicate IsMinChild<T(!new)>(cmp: (T, T) -> bool, s: seq<T>, i: nat, c: nat) {
    1 <= c < |s| && Parent(c) == i && forall j {:trigger s[j]} :: 1 <= j < |s| && Parent(j) == i ==> !cmp(s[c], s[j])
  }

  /** No child of `i` is smaller than it. */
  ghost predicate NoSmallerChild<T(!new)>(cmp: (T, T) -> bool, s: seq<T>, i: nat) {
    forall j {:trigger s[j]} :: 1 <= j < |s| && Parent(j) == i ==> !cmp(s[i], s[j])
  }

  lemma SiftDownStep<T(!new)>(cmp: (T, T) -> bool, s: seq<T>, i: nat, c: nat)
    requires StrictWeakOrder(cmp) && i < |s| && HeapButDown(cmp, s, i) && IsMinChild(cmp, s, i, c) && cmp(s[i], s[c])
    ensures HeapButDown(cmp, Swap(s, i, c), c)
  {
    var t := Swap(s, i, c);
    assert c > i;
    forall j, p | 1 <= j < |t| && p == Parent(j) && p != c
      ensures !cmp(t[p], t[j])
    {
      if j == c {
      } else if Parent(j) == i {
        assert t[j] == s[j] && !cmp(s[c], s[j]);
      } else if j == i {
        assert !cmp(s[Parent(i)], s[c]);
      } else {
        assert t[j] == s[j];
      }
    }
    forall j | 1 <= j < |t| && Parent(j) == c
      ensures !cmp(t[Parent(c)], t[j])
    {
      assert t[j] == s[j] && !cmp(s[c], s[j]);
    }
  }

  lemma ChildIsBelow<T(!new)>(cmp: (T, T) -> bool, s: seq<T>, i: nat, c: nat)
    requires IsMinChild(cmp, s, i, c) && cmp(s[i], s[c]) && i < |s| && StrictWeakOrder(cmp)
    ensures i < c < |s| && BitLength(c) == BitLength(i) + 1
  {
  }

  lemma SiftDownDone<T(!new)>(cmp: (T, T) -> bool, s: seq<T>, i: nat, c: nat)
    requires StrictWeakOrder(cmp) && HeapButDown(cmp, s, i) && (i < |s| || i == 0)
    requires if c == 0 then NoSmallerChild(cmp, s, i) else IsMinChild(cmp, s, i, c) && !cmp(s[i], s[c])
    ensures Heap(cmp, s)
  {
  }

  /** What minq_pop's first store leaves: the last element takes the place of the root. */
  function LastToRoot<T>(s: seq<T>): (t: seq<T>)
    requires s != []
    ensures |t| == |s| - 1
  {
    var n := |s| - 1;
    if n == 0 then [] else s[..n][0 := s[n]]
  }

  lemma LastToRootIsTheRest<T(!new)>(s: seq<T>, t: seq<T>)
    requires s != [] && SameItems(t, LastToRoot(s))
    ensures SameItems(t + [s[0]], s)
  {
    var n := |s| - 1;
    assert s == s[..n] + [s[n]];
    if n == 0 {
      assert s == [s[0]];
    }
  }

  lemma SiftDownStart<T(!new)>(cmp: (T, T) -> bool, s: seq<T>)
    requires s != [] && Heap(cmp, s)
    ensures HeapButDown(cmp, LastToRoot(s), 0)
  {
  }

  // ---------- What comes out ----------

  /** `popped` was taken out of `all` in order, leaving `rest`, none of it smaller. */
  ghost predicate PoppedSoFar<T(!new)>(cmp: (T, T) -> bool, all: seq<T>, popped: seq<T>, rest: seq<T>) {
    SameItems(popped + rest, all) &&
    (forall i, j :: 0 <= i < j < |popped| ==> !cmp(popped[i], popped[j])) &&
    (forall x, y :: x in popped && y in rest ==> !cmp(x, y))
  }

  lemma PoppedNone<T(!new)>(cmp: (T, T) -> bool, all: seq<T>, rest: seq<T>)
    requires SameItems(rest, all[..|all|])
    ensures PoppedSoFar(cmp, all, [], rest)
  {
    assert [] + rest == rest && all[..|all|] == all;
  }

  lemma PoppedOne<T(!new)>(cmp: (T, T) -> bool, all: seq<T>, popped: seq<T>, rest: seq<T>, rest': seq<T>)
    requires PoppedSoFar(cmp, all, popped, rest) && rest != [] && SameItems(rest' + [rest[0]], rest)
    requires forall x :: x in rest ==> !cmp(rest[0], x)
    ensures PoppedSoFar(cmp, all, popped + [rest[0]], rest')
  {
    var top := rest[0];
    forall x | x in rest'
      ensures x in rest
    {
      assert x in multiset(rest' + [top]);
    }
    assert multiset(popped + [top] + rest') == multiset(popped) + multiset(rest' + [top]);
  }

  lemma PoppedAll<T(!new)>(cmp: (T, T) -> bool, all: seq<T>, popped: seq<T>, rest: seq<T>)
    requires PoppedSoFar(cmp, all, popped, rest) && rest == []
    ensures SameItems(popped, all)
    ensures forall i, j :: 0 <= i < j < |popped| ==> !cmp(popped[i], popped[j])
  {
  }

  lemma PushedOne<T(!new)>(s: seq<T>, all: seq<T>, n: nat, t: seq<T>)
    requires n < |all| && SameItems(s, all[..n]) && SameItems(t, s + [all[n]])
    ensures SameItems(t, all[..n + 1])
  {
    assert all[..n + 1] == all[..n] + [all[n]];
  }

  class MinQueue<T(0, !new)> {
    const cmp: (T, T) -> bool
    var size: nat
    var e: array<T>

    ghost predicate Valid()
      reads this, e
    {
      size <= e.Length && 0 < e.Length && StrictWeakOrder(cmp) && Heap(cmp, e[..size])
    }

    /** minq_new */
    constructor (order: (T, T) -> bool)
      requires StrictWeakOrder(order)
      ensures Valid() && cmp == order && size == 0 && e.Length == SLOTS_PER_MALLOC && fresh(e)
    {
      cmp, size := order, 0;
      e := new T[SLOTS_PER_MALLOC];
    }

    /** The growth of minq_push: 20 more slots when all are in use. */
    method Grow()
      requires Valid()
      modifies this`e
      ensures Valid() && e[..size] == old(e[..size]) && size < e.Length
      ensures if size == old(e.Length) then fresh(e) && e.Length == size + SLOTS_PER_MALLOC else e == old(e)
    {
      if size == e.Length {
        var tmp := new T[size + SLOTS_PER_MALLOC];
        forall i | 0 <= i < size {
          tmp[i] := e[i];
        }
        assert tmp[..size] == e[..size];
        e := tmp;
      }
    }

    /** One round of minq_push's loop, in which the hole at `i` moves to `parent`: with `v` put into
        the hole, two slots are swapped. */
    method MoveParentDown(i: nat, parent: nat, v: T)
      requires parent < i < size <= e.Length
      modifies e
      ensures e[..size][parent := v] == Swap(old(e[..size])[i := v], i, parent)
    {
      e[i] := e[parent];
    }

    method Put(i: nat, v: T)
      requires i < size <= e.Length
      modifies e
      ensures e[..size] == old(e[..size])[i := v]
    {
      e[i] := v;
    }

    /** The loop and the final store of minq_push: `s` is the queue with `v` in the free slot. */
    method SiftUp(v: T, ghost s: seq<T>) returns (ghost steps: nat)
      requires 0 < size <= e.Length && StrictWeakOrder(cmp)
      requires s == e[..size - 1] + [v] && HeapButUp(cmp, s, size - 1)
      modifies e
      ensures Heap(cmp, e[..size]) && SameItems(e[..size], s)
      ensures steps <= BitLength(size - 1)
    {
      hide Heap, StrictWeakOrder, HeapButUp, BitLength, SameItems, Swap, Parent;
      var i: nat := size - 1;
      var parent := Parent(i);
      ghost var t := s;
      steps := 0;
      SameAsItself(s);
      while i > 0 && cmp(e[parent], v)
        invariant i < size && parent == Parent(i) && t == e[..size][i := v]
        invariant HeapButUp(cmp, t, i) && SameItems(t, s)
        invariant steps + BitLength(i) == BitLength(size - 1)
      {
        MoveParentDown(i, parent, v);
        SiftUpStep(cmp, t, i);
        BitLengthOfHalf(i);
        SwapKeepsItems(t, i, parent, s);
        t := Swap(t, i, parent);
        i := parent;
        parent := Parent(i);
        steps := steps + 1;
      }
      SiftUpDone(cmp, t, i);
      Put(i, v);
    }

    /** minq_push.  `steps` counts the rounds of its loop. */
    method Push(v: T) returns (ghost steps: nat)
      requires Valid()
      modifies this`size, this`e, e
      ensures Valid() && size == old(size) + 1 && SameItems(e[..size], old(e[..size]) + [v])
      ensures steps <= BitLength(old(size))
      ensures e == old(e) || fresh(e)
    {
      Grow();
      SiftUpStart(cmp, e[..size], v);
      size := size + 1;
      steps := SiftUp(v, e[..size - 1] + [v]);
    }

    /** has_child: the smallest child, or 0 for none.  Slot 0 passes for its own left child, so
        for the root the answer is also 0 when its only proper child is not smaller. */
    method HasChild(i: nat) returns (c: nat)
      requires size <= e.Length && StrictWeakOrder(cmp) && (i < size || i == 0)
      ensures c != 0 ==> IsMinChild(cmp, e[..size], i, c)
      ensures c == 0 ==> NoSmallerChild(cmp, e[..size], i)
    {
      var left := 2 * i;
      if left >= size {
        return 0;
      }
      var right := left + 1;
      if right < size && cmp(e[left], e[right]) {
        return right;
      }
      return left;
    }

    /** The loop of minq_pop. */
    method SiftDown(ghost s: seq<T>) returns (ghost steps: nat)
      requires size < e.Length && StrictWeakOrder(cmp) && s == e[..size] && HeapButDown(cmp, s, 0)
      modifies e
      ensures Heap(cmp, e[..size]) && SameItems(e[..size], s)
      ensures steps <= BitLength(size)
    {
      hide Heap, StrictWeakOrder, HeapButDown, IsMinChild, NoSmallerChild, SameItems;
      var current: nat := 0;
      steps := 0;
      SameAsItself(s);
      while true
        invariant current < size || current == 0
        invariant HeapButDown(cmp, e[..size], current) && SameItems(e[..size], s)
        invariant steps == BitLength(current)
        decreases size - current
      {
        var child := HasChild(current);
        if child == 0 || !cmp(e[current], e[child]) {
          SiftDownDone(cmp, e[..size], current, child);
          BitLengthMonotone(current, size);
          break;
        }
        ghost var t := e[..size];
        ChildIsBelow(cmp, t, current, child);
        SiftDownStep(cmp, t, current, child);
        SwapKeepsItems(t, current, child, s);
        e[current], e[child] := e[child], e[current];
        assert e[..size] == Swap(t, current, child);
        current := child;
        steps := steps + 1;
      }
    }

    /** The first store of minq_pop. */
    method MoveLast()
      requires 0 < size <= e.Length
      modifies this`size, e
      ensures size == old(size) - 1 && e[..size] == LastToRoot(old(e[..size]))
    {
      size := size - 1;
      e[0] := e[size];
    }

    /** minq_pop, which does nothing to an empty queue.  `steps` counts the rounds of its loop. */
    method Pop() returns (ghost steps: nat)
      requires Valid()
      modifies this`size, e
      ensures Valid() && size == if old(size) == 0 then 0 else old(size) - 1
      ensures old(size) > 0 ==> SameItems(e[..size] + [old(e[0])], old(e[..size]))
      ensures steps <= BitLength(size)
    {
      if size == 0 {
        return 0;
      }
      ghost var s := e[..size];
      SiftDownStart(cmp, s);
      MoveLast();
      steps := SiftDown(e[..size]);
      LastToRootIsTheRest(s, e[..size]);
    }

    /** minq_peek: an element no other is smaller than; None when the queue is empty. */
    method Peek() returns (top: Option<T>)
      requires Valid()
      ensures top == if size == 0 then None else Some(e[0])
      ensures top.Some? ==> forall x :: x in e[..size] ==> !cmp(top.value, x)
    {
      if size == 0 {
        return None;
      }
      forall x | x in e[..size]
        ensures !cmp(e[0], x)
      {
        var i :| 0 <= i < size && e[..size][i] == x;
        RootIsMinimal(cmp, e[..size], i);
      }
      return Some(e[0]);
    }
  }

  /** What the queue is for: whatever is pushed comes out again, nothing more and nothing less, and
      never a smaller element after a larger one. */
  method PushThenPopAll<T(0, !new)>(cmp: (T, T) -> bool, items: seq<T>) returns (popped: seq<T>)
    requires StrictWeakOrder(cmp)
    ensures SameItems(popped, items)
    ensures forall i, j :: 0 <= i < j < |popped| ==> !cmp(popped[i], popped[j])
  {
    hide SameItems, Heap, StrictWeakOrder;
    var q := new MinQueue(cmp);
    SameAsItself(items[..0]);
    for n := 0 to |items|
      invariant fresh(q) && fresh(q.e) && q.cmp == cmp && q.Valid() && SameItems(q.e[..q.size], items[..n])
    {
      ghost var before := q.e[..q.size];
      var _ := q.Push(items[n]);
      PushedOne(before, items, n, q.e[..q.size]);
    }
    popped := [];
    PoppedNone(cmp, items, q.e[..q.size]);
    var top := q.Peek();
    while top.Some?
      invariant fresh(q) && fresh(q.e) && q.cmp == cmp && q.Valid()
      invariant PoppedSoFar(cmp, items, popped, q.e[..q.size])
      invariant top == if q.size == 0 then None else Some(q.e[0])
      invariant top.Some? ==> forall x :: x in q.e[..q.size] ==> !cmp(top.value, x)
      decreases q.size
    {
      ghost var before := q.e[..q.size];
      var _ := q.Pop();
      PoppedOne(cmp, items, popped, before, q.e[..q.size]);
      popped := popped + [top.value];
      top := q.Peek();
    }
    PoppedAll(cmp, items, popped, q.e[..q.size]);
  }
}
