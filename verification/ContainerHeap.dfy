/** The binary min-heap of Go's container/heap, on which the nonce index and the
    price index of the transaction pool are built.

    Elements are compared through an integer `rank`: an element is less than
    another exactly when its rank is smaller.
 */
module ContainerHeap {

  /** Index of the parent of slot `j`. */
  function Parent(j: nat): nat
    requires j > 0
  {
    (j - 1) / 2
  }

  /** Every parent at index `b` or later is no larger than its children, except
      that slot `i` may be too large for its own; the children of `i` are still
      no smaller than its parent. */
  ghost predicate OrderedBelow<T>(h: seq<T>, b: nat, i: nat, rank: T -> int) {
    && (forall j :: 0 < j < |h| && b <= Parent(j) != i ==> rank(h[Parent(j)]) <= rank(h[j]))
    && (forall j :: 0 < j < |h| && Parent(j) == i && i > 0 && b <= Parent(i) ==> rank(h[Parent(i)]) <= rank(h[j]))
  }

  /** Heap order, except that slot `i` may be too small for its parent. */
  ghost predicate OrderedAbove<T>(h: seq<T>, i: nat, rank: T -> int) {
    && (forall j :: 0 < j < |h| && j != i ==> rank(h[Parent(j)]) <= rank(h[j]))
    && (forall j :: 0 < j < |h| && Parent(j) == i && i > 0 ==> rank(h[Parent(i)]) <= rank(h[j]))
  }

  ghost predicate IsHeap<T>(h: seq<T>, rank: T -> int) {
    forall j :: 0 < j < |h| ==> rank(h[Parent(j)]) <= rank(h[j])
  }

  ghost predicate NoSmallerChild<T>(h: seq<T>, i: nat, rank: T -> int) {
    forall j :: 0 < j < |h| && Parent(j) == i ==> rank(h[i]) <= rank(h[j])
  }

  /** The root of a heap is a minimum of the whole heap. */
  lemma {:induction false} RootIsLeast<T>(h: seq<T>, rank: T -> int, k: nat)
    requires IsHeap(h, rank) && k < |h|
    ensures rank(h[0]) <= rank(h[k])
    decreases k
  {
    if k > 0 {
      RootIsLeast(h, rank, Parent(k));
    }
  }

  function Swap<T>(h: seq<T>, i: nat, j: nat): (r: seq<T>)
    requires i < |h| && j < |h|
    ensures |r| == |h| && multiset(r) == multiset(h)
  {
    h[i := h[j]][j := h[i]]
  }

  /** Slot `j` is the smaller child of slot `i`. */
  ghost predicate SmallerChild<T>(h: seq<T>, i: nat, j: nat, rank: T -> int) {
    && 0 < j < |h| && Parent(j) == i
    && forall k :: 0 < k < |h| && Parent(k) == i ==> rank(h[j]) <= rank(h[k])
  }

  /** One step towards the leaves: swapping slot `i` with its smaller child `j`. */
  lemma DownStep<T>(h: seq<T>, b: nat, i: nat, j: nat, rank: T -> int)
    requires SmallerChild(h, i, j, rank)
    requires rank(h[j]) < rank(h[i])
    requires OrderedBelow(h, b, i, rank)
    ensures OrderedBelow(Swap(h, i, j), b, j, rank)
  {
    var r := Swap(h, i, j);
    forall k | 0 < k < |h| && b <= Parent(k) != j
      ensures rank(r[Parent(k)]) <= rank(r[k])
    {
      if k == i {
        assert rank(h[Parent(i)]) <= rank(h[j]);
      }
    }
  }

  method PickChild<T>(h: seq<T>, i: nat, rank: T -> int) returns (j: nat)
    requires 2 * i + 1 < |h|
    ensures SmallerChild(h, i, j, rank) && i < j
  {
    j := 2 * i + 1;
    if j + 1 < |h| && rank(h[j + 1]) < rank(h[j]) {
      j := j + 1;
    }
    assert forall k :: 0 < k < |h| && Parent(k) == i ==> k == 2 * i + 1 || k == 2 * i + 2;
  }

  /** Moves slot `i0` towards the leaves. Nothing moves exactly when no child is
      smaller. */
  method Down<T>(h: seq<T>, i0: nat, rank: T -> int, ghost b: nat) returns (r: seq<T>, moved: bool)
    requires NoSmallerChild(h, i0, rank) || OrderedBelow(h, b, i0, rank)
    ensures |r| == |h| && multiset(r) == multiset(h)
    ensures moved <==> !NoSmallerChild(h, i0, rank)
    ensures !moved ==> r == h
    ensures OrderedBelow(h, b, i0, rank) ==> OrderedBelow(r, b, |h|, rank)
  {
    r := h;
    var i := i0;
    while 2 * i + 1 < |r|
      invariant i0 <= i
      invariant |r| == |h| && multiset(r) == multiset(h)
      invariant i == i0 ==> r == h
      invariant i > i0 ==> !NoSmallerChild(h, i0, rank) && OrderedBelow(r, b, i, rank)
    {
      var j := PickChild(r, i, rank);
      if rank(r[i]) <= rank(r[j]) {
        break;
      }
      DownStep(r, b, i, j, rank);
      r := Swap(r, i, j);
      i := j;
    }
    moved := i > i0;
  }

  /** One step towards the root: swapping slot `j` with its larger parent. */
  lemma UpStep<T>(h: seq<T>, j: nat, rank: T -> int)
    requires 0 < j < |h| && OrderedAbove(h, j, rank)
    requires rank(h[j]) < rank(h[Parent(j)])
    ensures OrderedAbove(Swap(h, Parent(j), j), Parent(j), rank)
  {
    var i := Parent(j);
    var r := Swap(h, i, j);
    forall k | 0 < k < |h| && Parent(k) == i && i > 0
      ensures rank(r[Parent(i)]) <= rank(r[k])
    {
      assert rank(h[Parent(i)]) <= rank(h[i]);
    }
  }

  /** Moves slot `j0` towards the root. */
  method Up<T>(h: seq<T>, j0: nat, rank: T -> int) returns (r: seq<T>)
    requires j0 < |h| && OrderedAbove(h, j0, rank)
    ensures |r| == |h| && multiset(r) == multiset(h) && IsHeap(r, rank)
  {
    r := h;
    var j: nat := j0;
    while j > 0
      invariant j < |r| == |h| && multiset(r) == multiset(h)
      invariant OrderedAbove(r, j, rank)
    {
      var i := Parent(j);
      if rank(r[i]) <= rank(r[j]) {
        break;
      }
      UpStep(r, j, rank);
      r := Swap(r, i, j);
      j := i;
    }
  }

  /** heap.Init: establishes heap order over the same elements. */
  method Init<T>(h: seq<T>, rank: T -> int) returns (r: seq<T>)
    ensures IsHeap(r, rank) && multiset(r) == multiset(h) && |r| == |h|
  {
    r := h;
    var i := |h| / 2;
    while i > 0
      invariant 0 <= i <= |h| / 2 && |r| == |h| && multiset(r) == multiset(h)
      invariant OrderedBelow(r, i, |r|, rank)
    {
      i := i - 1;
      var moved;
      r, moved := Down(r, i, rank, i);
    }
  }

  /** heap.Push. */
  method Push<T>(h: seq<T>, x: T, rank: T -> int) returns (r: seq<T>)
    requires IsHeap(h, rank)
    ensures IsHeap(r, rank) && multiset(r) == multiset(h) + multiset{x} && |r| == |h| + 1
  {
    assert forall j :: 0 < j < |h| + 1 && j != |h| ==> Parent(j) < |h|;
    r := Up(h + [x], |h|, rank);
  }

  /** Overwriting slot `i` with another element leaves heap order around it. */
  lemma Overwritten<T>(h: seq<T>, i: nat, x: T, rank: T -> int)
    requires IsHeap(h, rank) && i < |h|
    ensures NoSmallerChild(h[i := x], i, rank) ==> OrderedAbove(h[i := x], i, rank)
    ensures !NoSmallerChild(h[i := x], i, rank) ==> OrderedBelow(h[i := x], 0, i, rank)
  {
  }

  /** heap.Remove: takes out the element in slot `i`. */
  method Remove<T>(h: seq<T>, i: nat, rank: T -> int) returns (r: seq<T>)
    requires IsHeap(h, rank) && i < |h|
    ensures IsHeap(r, rank) && multiset(r) == multiset(h) - multiset{h[i]} && |r| == |h| - 1
  {
    var n := |h| - 1;
    assert h == h[..n] + [h[n]];
    if n == i {
      r := h[..n];
    } else {
      // the swapped-out element sits behind the n remaining slots
      var s := h[..n][i := h[n]];
      Overwritten(h[..n], i, h[n], rank);
      var d, moved := Down(s, i, rank, 0);
      if !moved {
        r := Up(d, i, rank);
      } else {
        r := d;
      }
    }
  }

  /** heap.Pop: takes out a least element. */
  method Pop<T>(h: seq<T>, rank: T -> int) returns (x: T, r: seq<T>)
    requires IsHeap(h, rank) && |h| > 0
    ensures IsHeap(r, rank) && multiset(r) == multiset(h) - multiset{x} && |r| == |h| - 1
    ensures x == h[0] && forall y :: y in h ==> rank(x) <= rank(y)
  {
    x := h[0];
    forall y | y in h ensures rank(x) <= rank(y) {
      var k :| 0 <= k < |h| && h[k] == y;
      RootIsLeast(h, rank, k);
    }
    r := Remove(h, 0, rank);
  }
}
