/** src/base/lock_free_queue.h used from one thread at a time: linked nodes updated in
    place, proved against the sequence of values not yet consumed. The interleaved
    behaviour of the same code is in module SpscQueue. */
module LockFreeQueue {
  import opened Wrappers

  class Node<T> {
    var value: T
    var next: Node?<T>

    constructor (value: T)
      ensures this.value == value && next == null
    {
      this.value := value;
      next := null;
    }
  }

  // The i-th node points at the next one.
  ghost predicate LinkAt<T>(ns: seq<Node<T>>, i: int)
    requires 0 <= i < |ns|
    reads ns
  {
    ns[i].next == if i + 1 < |ns| then ns[i + 1] else null
  }

  ghost predicate Chained<T>(ns: seq<Node<T>>)
    reads ns
  {
    && (forall i, j :: 0 <= i < j < |ns| ==> ns[i] != ns[j])
    && (forall i :: 0 <= i < |ns| ==> LinkAt(ns, i))
  }

  ghost function Values<T>(ns: seq<Node<T>>): (s: seq<T>)
    reads ns
    ensures |s| == |ns| && forall i :: 0 <= i < |ns| ==> s[i] == ns[i].value
  {
    seq(|ns|, i requires 0 <= i < |ns| reads ns => ns[i].value)
  }

  lemma SuffixChained<T>(ns: seq<Node<T>>, k: nat)
    requires k <= |ns| && Chained(ns)
    ensures Chained(ns[k..])
  {
    forall i | 0 <= i < |ns| - k
      ensures LinkAt(ns[k..], i)
    {
      assert LinkAt(ns, i + k);
    }
  }

  class Queue<T> {
    var first: Node<T>
    var divider: Node<T>
    var last: Node<T>
    var size: int
    ghost var nodes: seq<Node<T>>  // the nodes not yet freed, first to last
    ghost var consumed: nat        // index of divider in nodes

    ghost predicate Valid()
      reads this, nodes
    {
      && consumed < |nodes| && Chained(nodes)
      && first == nodes[0] && divider == nodes[consumed] && last == nodes[|nodes| - 1]
      && size == |nodes| - 1 - consumed
    }

    ghost function Contents(): (s: seq<T>)
      requires Valid()
      reads this, nodes
      ensures |s| == size
    {
      Values(nodes[consumed + 1..])
    }

    constructor (dummy: T)
      ensures Valid() && Contents() == [] && fresh(nodes)
    {
      var n := new Node(dummy);
      first, divider, last, size := n, n, n, 0;
      nodes, consumed := [n], 0;
    }

    /** Appends one value and frees exactly the consumed nodes: afterwards nothing
        before divider is left. */
    method Produce(t: T)
      requires Valid()
      modifies this, last
      ensures Valid() && Contents() == old(Contents()) + [t]
      ensures first == divider == old(divider) && consumed == 0
      ensures nodes[..|nodes| - 1] == old(nodes[consumed..]) && fresh(nodes[|nodes| - 1])
    {
      Append(t);
      Reclaim();
    }

    // while (divider != first) delete the node at first
    method Reclaim()
      requires Valid()
      modifies `first, `nodes, `consumed
      ensures Valid() && consumed == 0 && nodes == old(nodes[consumed..])
      ensures Contents() == old(Contents())
    {
      ghost var k: nat := 0;
      while divider != first
        modifies `first
        invariant k <= consumed && first == nodes[k]
        decreases consumed - k
      {
        assert LinkAt(nodes, k);
        first := first.next;
        k := k + 1;
      }
      SuffixChained(nodes, consumed);
      assert nodes[consumed..][1..] == nodes[consumed + 1..];
      nodes, consumed := nodes[consumed..], 0;
    }

    // last->next = new Node(t); last = last->next; ++_size
    method Append(t: T)
      requires Valid()
      modifies this, last
      ensures Valid() && Contents() == old(Contents()) + [t]
      ensures first == old(first) && divider == old(divider) && consumed == old(consumed)
      ensures |nodes| == |old(nodes)| + 1 && nodes[..|old(nodes)|] == old(nodes) && fresh(nodes[|old(nodes)|])
    {
      var n := new Node(t);
      last.next := n;
      last := n;
      size := size + 1;
      nodes := nodes + [n];
      forall i | 0 <= i < |nodes|
        ensures LinkAt(nodes, i)
      {
        assert i < |old(nodes)| ==> old(LinkAt(nodes, i));
      }
      assert Contents() == old(Contents()) + [t];
    }

    /** Takes the oldest value if there is one, and frees nothing. */
    method Consume() returns (result: Option<T>)
      requires Valid()
      modifies `divider, `size, `consumed
      ensures Valid()
      ensures result == None <==> old(Contents()) == []
      ensures result.Some? ==> old(Contents()) == [result.value] + Contents()
      ensures result.None? ==> divider == old(divider) && size == old(size) && consumed == old(consumed)
    {
      if divider == last {
        return None;
      }
      assert LinkAt(nodes, consumed);
      ghost var rest := nodes[consumed + 1..];
      assert Values(rest) == [rest[0].value] + Values(rest[1..]);
      result := Some(divider.next.value);
      divider := divider.next;
      size := size - 1;
      consumed := consumed + 1;
      assert nodes[consumed + 1..] == rest[1..];
    }
  }
}
