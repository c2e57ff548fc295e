/** Null-terminated singly linked lists on the heap, as gpgme hands them out. */
module Chains {

  class Node<T> {
    var value: T
    var next: Node?<T>

    constructor (value: T)
      ensures this.value == value && next == null
    {
      this.value, next := value, null;
    }
  }

  /** `head` leads through exactly these distinct nodes to null. */
  ghost predicate IsChain<T>(head: Node?<T>, nodes: seq<Node<T>>)
    reads nodes`next
  {
    && head == Successor(nodes, -1)
    && Distinct(nodes)
    && forall i {:trigger nodes[i].next} :: 0 <= i < |nodes| ==> nodes[i].next == Successor(nodes, i)
  }

  ghost function Successor<T>(nodes: seq<Node<T>>, i: int): Node?<T>
    requires -1 <= i < |nodes|
  {
    if i + 1 < |nodes| then nodes[i + 1] else null
  }

  ghost predicate Distinct<T>(s: seq<T>) {
    forall i, j :: 0 <= i < j < |s| ==> s[i] != s[j]
  }

  ghost function Values<T>(nodes: seq<Node<T>>): (values: seq<T>)
    reads nodes
    ensures |values| == |nodes|
    ensures forall i :: 0 <= i < |nodes| ==> values[i] == nodes[i].value
  {
    seq(|nodes|, i requires 0 <= i < |nodes| reads nodes => nodes[i].value)
  }

  lemma {:induction false} SamePrefix<T>(head: Node?<T>, a: seq<Node<T>>, b: seq<Node<T>>, k: nat)
    requires IsChain(head, a) && IsChain(head, b) && k <= |a| && k <= |b|
    ensures a[..k] == b[..k] && Successor(a, k - 1) == Successor(b, k - 1)
  {
    if 0 < k {
      SamePrefix(head, a, b, k - 1);
      assert a[k - 1] == Successor(a, k - 2) == Successor(b, k - 2) == b[k - 1];
      assert a[k - 1].next == Successor(a, k - 1) && b[k - 1].next == Successor(b, k - 1);
      assert a[..k] == a[..k - 1] + [a[k - 1]] && b[..k] == b[..k - 1] + [b[k - 1]];
    }
  }

  /** A head determines its nodes. */
  lemma ChainIsUnique<T>(head: Node?<T>, a: seq<Node<T>>, b: seq<Node<T>>)
    requires IsChain(head, a) && IsChain(head, b)
    ensures a == b
  {
    SamePrefix(head, a, b, if |a| < |b| then |a| else |b|);
  }

  lemma ChainTail<T>(head: Node<T>, nodes: seq<Node<T>>)
    requires IsChain(head, nodes)
    ensures nodes != [] && nodes[0] == head && IsChain(head.next, nodes[1..])
  {
    var rest := nodes[1..];
    assert head.next == Successor(nodes, 0);
    forall i | 0 <= i < |rest|
      ensures rest[i].next == Successor(rest, i)
    {
      assert nodes[i + 1].next == Successor(nodes, i + 1);
    }
  }

  /** The counting loop: how many nodes follow. */
  method Length<T>(head: Node?<T>, ghost nodes: seq<Node<T>>) returns (n: nat)
    requires IsChain(head, nodes)
    ensures n == |nodes|
  {
    n := 0;
    var a := head;
    while a != null
      invariant n <= |nodes| && a == Successor(nodes, n - 1)
      decreases |nodes| - n
    {
      assert a == nodes[n] && a.next == Successor(nodes, n);
      a := a.next;
      n := n + 1;
    }
  }

  /** The indexing loop: the node at `idx`, or null past the end. */
  method At<T>(head: Node?<T>, ghost nodes: seq<Node<T>>, idx: nat) returns (a: Node?<T>)
    requires IsChain(head, nodes)
    ensures a == if idx < |nodes| then nodes[idx] else null
  {
    a := head;
    var left: nat := idx;
    ghost var k := 0;
    while a != null && left != 0
      invariant k + left == idx && k <= |nodes| && a == Successor(nodes, k - 1)
      decreases left
    {
      assert a == nodes[k] && a.next == Successor(nodes, k);
      a := a.next;
      left := left - 1;
      k := k + 1;
    }
  }

  /** The collecting loop: what `read` finds in each node, in order. */
  method Collect<T, R>(head: Node?<T>, ghost nodes: seq<Node<T>>, read: T -> R) returns (result: seq<R>)
    requires IsChain(head, nodes)
    ensures |result| == |nodes|
    ensures forall i :: 0 <= i < |nodes| ==> result[i] == read(nodes[i].value)
  {
    result := [];
    var a := head;
    while a != null
      invariant |result| <= |nodes| && a == Successor(nodes, |result| - 1)
      invariant forall i :: 0 <= i < |result| ==> result[i] == read(nodes[i].value)
      decreases |nodes| - |result|
    {
      assert a == nodes[|result|] && a.next == Successor(nodes, |result|);
      result := result + [read(a.value)];
      a := a.next;
    }
  }

  ghost function Singleton<T>(n: Node?<T>): set<Node<T>> {
    if n == null then {} else {n}
  }

  /** Appending a single node behind the last one. */
  method Append<T>(head: Node?<T>, last: Node?<T>, arg: Node<T>, ghost nodes: seq<Node<T>>) returns (result: Node<T>)
    requires IsChain(head, nodes) && arg !in nodes && arg.next == null
    requires last == if nodes == [] then null else nodes[|nodes| - 1]
    modifies Singleton(last)`next
    ensures IsChain(result, nodes + [arg])
  {
    if last != null {
      last.next := arg;
      result := head;
    } else {
      result := arg;
    }
    ghost var all := nodes + [arg];
    forall i | 0 <= i < |all|
      ensures all[i].next == Successor(all, i)
    {
      if i + 1 < |nodes| {
        assert old(nodes[i].next) == Successor(nodes, i);
      }
    }
  }
}
