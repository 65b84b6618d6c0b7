/** Intrusive singly linked lists of descriptors: the get list, the put list and
    the chains the host stack hands back are all threaded through each
    descriptor's next link (NET_BUFFER_LIST_NEXT_NBL). */
module Chains {
  import opened Types

  /** The head pointer of a list whose elements, in order, are `xs`. */
  function HeadOf(xs: seq<Id>): (h: Option<Id>)
  {
    if xs == [] then None else Some(xs[0])
  }

  /** Following next links in `heap` from `head` visits exactly `xs`, then NULL. */
  ghost predicate ChainOf(heap: map<Id, Descriptor>, head: Option<Id>, xs: seq<Id>)
    decreases |xs|
  {
    if xs == [] then head == None
    else head == Some(xs[0]) && xs[0] in heap && ChainOf(heap, heap[xs[0]].next, xs[1..])
  }

  ghost predicate Distinct(xs: seq<Id>)
  {
    forall i, j :: 0 <= i < j < |xs| ==> xs[i] != xs[j]
  }

  /** `xs` in the opposite order, built from its last element. */
  function Reversed(xs: seq<Id>): (r: seq<Id>)
  {
    if xs == [] then [] else [xs[|xs| - 1]] + Reversed(xs[..|xs| - 1])
  }

  /** A chain is anchored at its first element and stays inside the heap. */
  lemma {:induction false} ChainInHeap(heap: map<Id, Descriptor>, head: Option<Id>, xs: seq<Id>)
    requires ChainOf(heap, head, xs)
    ensures head == HeadOf(xs)
    ensures forall x :: x in xs ==> x in heap
    decreases |xs|
  {
    if xs != [] {
      ChainInHeap(heap, heap[xs[0]].next, xs[1..]);
      assert xs == [xs[0]] + xs[1..];
    }
  }

  /** A chain survives any heap change that keeps its members and their next links. */
  lemma {:induction false} ChainFrame(heap: map<Id, Descriptor>, heap': map<Id, Descriptor>, head: Option<Id>, xs: seq<Id>)
    requires ChainOf(heap, head, xs)
    requires forall x :: x in xs ==> x in heap && x in heap' && heap'[x].next == heap[x].next
    ensures ChainOf(heap', head, xs)
    decreases |xs|
  {
    if xs != [] {
      assert xs[0] in xs;
      forall x | x in xs[1..] ensures x in heap && x in heap' && heap'[x].next == heap[x].next {
        assert x in xs;
      }
      ChainFrame(heap, heap', heap[xs[0]].next, xs[1..]);
    }
  }

  /** Linking a descriptor that is not on a chain in front of the chain's head
      gives a chain one longer. */
  lemma ChainPush(heap: map<Id, Descriptor>, head: Option<Id>, xs: seq<Id>, d: Id, desc: Descriptor)
    requires ChainOf(heap, head, xs)
    requires d !in xs && desc.next == head
    ensures ChainOf(heap[d := desc], Some(d), [d] + xs)
  {
    ChainInHeap(heap, head, xs);
    ChainFrame(heap, heap[d := desc], head, xs);
    assert ([d] + xs)[1..] == xs;
  }

  /** A chain is determined by its head: following next links from one head
      visits one sequence only. */
  lemma {:induction false} ChainUnique(heap: map<Id, Descriptor>, h: Option<Id>, g: Option<Id>, xs: seq<Id>, ys: seq<Id>)
    requires ChainOf(heap, h, xs) && ChainOf(heap, g, ys)
    ensures h == g ==> xs == ys
    decreases |xs|
  {
    if xs != [] && ys != [] {
      ChainUnique(heap, heap[xs[0]].next, heap[ys[0]].next, xs[1..], ys[1..]);
      assert xs == [xs[0]] + xs[1..];
      assert ys == [ys[0]] + ys[1..];
    }
  }

  /** Every suffix of a chain is the chain from the descriptor it starts at. */
  lemma {:induction false} ChainSuffix(heap: map<Id, Descriptor>, head: Option<Id>, xs: seq<Id>, i: nat)
    requires ChainOf(heap, head, xs) && i <= |xs|
    ensures ChainOf(heap, HeadOf(xs[i..]), xs[i..])
    decreases i
  {
    ChainInHeap(heap, head, xs);
    if i > 0 {
      ChainSuffix(heap, heap[xs[0]].next, xs[1..], i - 1);
      assert xs[1..][i - 1..] == xs[i..];
    }
  }

  /** A chain that ends in NULL never visits a descriptor twice: a repeat would
      make the chain from that descriptor two different lengths. */
  lemma ChainDistinct(heap: map<Id, Descriptor>, head: Option<Id>, xs: seq<Id>)
    requires ChainOf(heap, head, xs)
    ensures Distinct(xs)
  {
    forall i, j | 0 <= i < j < |xs|
      ensures xs[i] != xs[j]
    {
      ChainSuffix(heap, head, xs, i);
      ChainSuffix(heap, head, xs, j);
      ChainUnique(heap, HeadOf(xs[i..]), HeadOf(xs[j..]), xs[i..], xs[j..]);
    }
  }

  /** Dropping the head of a repetition-free list leaves a repetition-free list
      that no longer holds the head. */
  lemma DistinctTail(xs: seq<Id>)
    requires xs != [] && Distinct(xs)
    ensures Distinct(xs[1..]) && xs[0] !in xs[1..]
  {
  }

  /** Dropping the last element likewise. */
  lemma DistinctInit(xs: seq<Id>)
    requires xs != [] && Distinct(xs)
    ensures Distinct(xs[..|xs| - 1]) && xs[|xs| - 1] !in xs[..|xs| - 1]
  {
  }

  /** A non-empty list is its prefix followed by its last element. */
  lemma InitLast(xs: seq<Id>)
    requires xs != []
    ensures xs == xs[..|xs| - 1] + [xs[|xs| - 1]]
  {
  }

  /** Reversal keeps the elements and their number. */
  lemma {:induction false} ReversedElements(xs: seq<Id>)
    ensures |Reversed(xs)| == |xs|
    ensures forall x :: x in Reversed(xs) <==> x in xs
    decreases |xs|
  {
    if xs != [] {
      var init := xs[..|xs| - 1];
      ReversedElements(init);
      assert xs == init + [xs[|xs| - 1]];
    }
  }

  /** Reversing then prepending to `rest`: the last element goes in front. */
  lemma {:induction false} ReversedOnto(xs: seq<Id>, rest: seq<Id>)
    requires xs != []
    ensures Reversed(xs) + rest == [xs[|xs| - 1]] + (Reversed(xs[..|xs| - 1]) + rest)
  {
    var ri := Reversed(xs[..|xs| - 1]);
    assert Reversed(xs) == [xs[|xs| - 1]] + ri;
    assert ([xs[|xs| - 1]] + ri) + rest == [xs[|xs| - 1]] + (ri + rest);
  }
}
