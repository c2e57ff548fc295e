/** Component::load: taking a chain of components apart so that each one owns itself alone. */
module Components {
  import opened Chains

  type Comp = Node<string>
  type MaybeComp = Node?<string>

  /** What gpgme_conf_release has been applied to. */
  class Releaser {
    ghost var released: multiset<Comp>

    constructor ()
      ensures released == multiset{}
    {
      released := multiset{};
    }

    /** gpgme_conf_release: releases the component and everything its `next` leads to. */
    method Release(head: MaybeComp, ghost nodes: seq<Comp>)
      requires IsChain(head, nodes)
      modifies this
      ensures released == old(released) + multiset(nodes)
    {
      var a := head;
      ghost var k := 0;
      while a != null
        invariant k <= |nodes| && a == Successor(nodes, k - 1)
        invariant released == old(released) + multiset(nodes[..k])
        decreases |nodes| - k
      {
        assert a == nodes[k] && a.next == Successor(nodes, k);
        assert nodes[..k + 1] == nodes[..k] + [a];
        released := released + multiset{a};
        a := a.next;
        k := k + 1;
      }
      assert nodes[..k] == nodes;
    }

    /** The destructor of a vector of components: every element's owner releases what it leads to. */
    method ReleaseEach(comps: seq<Comp>)
      requires Separated(comps)
      modifies this
      ensures released == old(released) + multiset(comps)
    {
      for i := 0 to |comps|
        invariant released == old(released) + multiset(comps[..i])
      {
        Release(comps[i], [comps[i]]);
        assert comps[..i + 1] == comps[..i] + [comps[i]];
      }
      assert comps[..|comps|] == comps;
    }
  }

  /** Every component has lost its `next`, so it owns exactly itself. */
  ghost predicate Separated(comps: seq<Comp>)
    reads comps
  {
    forall i :: 0 <= i < |comps| ==> comps[i].next == null
  }

  lemma Shift(nodes: seq<Comp>, k: nat)
    requires k < |nodes|
    ensures nodes[k..][0] == nodes[k] && nodes[k..][1..] == nodes[k + 1..]
    ensures nodes[..k + 1] == nodes[..k] + [nodes[k]]
  {
  }

  lemma Parts(nodes: seq<Comp>, k: nat)
    requires k < |nodes|
    ensures multiset(nodes[..k]) + multiset(nodes[k..]) == multiset(nodes)
    ensures multiset{nodes[k]} + multiset(nodes[k + 1..]) == multiset(nodes[k..])
  {
    assert nodes[..k] + nodes[k..] == nodes;
    assert [nodes[k]] + nodes[k + 1..] == nodes[k..];
  }

  /** Stack unwinding after a failed `resize`: `next`, `head` and the result vector go out of scope. */
  method CannotGrow(result: seq<Comp>, head: Comp, next: MaybeComp, ghost nodes: seq<Comp>, r: Releaser)
    requires |result| < |nodes| && result == nodes[..|result|] && Separated(result)
    requires head == nodes[|result|] && IsChain(head, [head]) && IsChain(next, nodes[|result| + 1..])
    modifies r
    ensures r.released == old(r.released) + multiset(nodes)
  {
    Parts(nodes, |result|);
    r.Release(next, nodes[|result| + 1..]);
    r.Release(head, [head]);
    r.ReleaseEach(result);
  }

  /** A `reset` that cannot allocate its control block releases what it was given; stack unwinding then
      releases `head`, which still points there, and the result vector. */
  method CannotOwn(result: seq<Comp>, head: Comp, ghost nodes: seq<Comp>, r: Releaser)
    requires |result| < |nodes| && result == nodes[..|result|] && Separated(result)
    requires IsChain(head, nodes[|result|..]) && IsChain(head.next, nodes[|result| + 1..])
    modifies r
    ensures r.released == old(r.released) + multiset(nodes) + multiset(nodes[|result| + 1..])
  {
    Parts(nodes, |result|);
    r.Release(head.next, nodes[|result| + 1..]);
    r.Release(head, nodes[|result|..]);
    r.ReleaseEach(result);
  }

  /** Giving the k-th component's successor an owner throws: `owners` control blocks can be allocated,
      the first of which went to the head of the chain. */
  predicate OwnerThrows(n: nat, owners: nat, k: nat) {
    k + 1 == owners < n
  }

  /** Some exception leaves the loop: an owner that cannot be allocated, or a vector that cannot grow. */
  predicate Throws(n: nat, owners: nat, room: nat) {
    owners == 0 || owners < n || room < n
  }

  /** The components that are released a second time: when an owner throws inside the loop, the chain it
      was to own is released, and then once more through the predecessor that still points to it. */
  function ReleasedAgain<T>(nodes: seq<T>, owners: nat, room: nat): (again: seq<T>)
    ensures again != [] <==> 1 <= owners < |nodes| && owners <= room + 1
  {
    if 1 <= owners < |nodes| && owners <= room + 1 then nodes[owners..] else []
  }

  /** One turn of the conversion loop; `head` leads to what is left of the chain. */
  method LoadOne(head: Comp, ghost nodes: seq<Comp>, result: seq<Comp>, owners: nat, room: nat, r: Releaser)
    returns (next: MaybeComp, thrown: bool)
    requires |result| < |nodes| && |result| < owners && |result| <= room
    requires result == nodes[..|result|] && Separated(result) && IsChain(head, nodes[|result|..])
    modifies head`next, r
    ensures thrown ==> Throws(|nodes|, owners, room)
    ensures thrown ==> r.released == old(r.released) + multiset(nodes) + multiset(ReleasedAgain(nodes, owners, room))
    ensures !thrown ==> |result| < room && (|result| + 1 < owners || |result| + 1 == |nodes| == owners)
    ensures !thrown ==> r.released == old(r.released) && head.next == null && IsChain(next, nodes[|result| + 1..])
  {
    Shift(nodes, |result|);
    ChainTail(head, nodes[|result|..]);
    next := head.next;
    if next != null && |result| + 1 == owners {
      CannotOwn(result, head, nodes, r);
      return null, true;
    }
    Detach(head, nodes[|result|..]);
    if |result| == room {
      CannotGrow(result, head, next, nodes, r);
      return null, true;
    }
    thrown := false;
  }

  /** The conversion loop of Component::load. `room` says how many components the vector can take before
      growing it throws, `owners` how many control blocks can be allocated. Without an exception the
      result is the chain's components in order, each separated. An exception releases every component
      of the chain, some of them twice. */
  method Load(list: MaybeComp, ghost nodes: seq<Comp>, owners: nat, room: nat, r: Releaser)
    returns (result: seq<Comp>, thrown: bool)
    requires IsChain(list, nodes)
    modifies nodes`next, r
    ensures thrown <==> Throws(|nodes|, owners, room)
    ensures if thrown then
              && result == []
              && r.released == old(r.released) + multiset(nodes) + multiset(ReleasedAgain(nodes, owners, room))
            else result == nodes && Separated(result) && r.released == old(r.released)
  {
    result := [];
    if owners == 0 {
      r.Release(list, nodes);
      return [], true;
    }
    var head := list;
    assert nodes[0..] == nodes;
    while head != null
      invariant |result| <= |nodes| && |result| <= room && (|result| < owners || |result| == |nodes| == owners)
      invariant result == nodes[..|result|] && IsChain(head, nodes[|result|..]) && Separated(result)
      invariant r.released == old(r.released)
      decreases |nodes| - |result|
    {
      Shift(nodes, |result|);
      assert head == nodes[|result|];
      var next;
      next, thrown := LoadOne(head, nodes, result, owners, room, r);
      if thrown {
        return [], true;
      }
      result := result + [head];
      head := next;
    }
    thrown := false;
  }

  /** `head->next = 0`: the two owners now hold disjoint chains. */
  method Detach(head: Comp, ghost nodes: seq<Comp>)
    requires IsChain(head, nodes)
    modifies head`next
    ensures IsChain(head, [head]) && nodes != [] && nodes[0] == head
    ensures IsChain(old(head.next), nodes[1..])
  {
    ChainTail(head, nodes);
    ghost var rest := nodes[1..];
    assert head !in rest;
    head.next := null;
    assert forall i :: 0 <= i < |rest| ==> rest[i].next == old(rest[i].next);
  }

  /** Loading and dropping the result releases each component exactly once if and only if no owner throws
      inside the loop. */
  method LoadAndDrop(list: MaybeComp, ghost nodes: seq<Comp>, owners: nat, room: nat, r: Releaser)
    requires IsChain(list, nodes)
    modifies nodes`next, r
    ensures r.released == old(r.released) + multiset(nodes) + multiset(ReleasedAgain(nodes, owners, room))
    ensures r.released == old(r.released) + multiset(nodes)
       <==> !(1 <= owners < |nodes| && owners <= room + 1)
  {
    var comps, thrown := Load(list, nodes, owners, room, r);
    if !thrown {
      r.ReleaseEach(comps);
    }
    ghost var again := ReleasedAgain(nodes, owners, room);
    if again != [] {
      assert again[0] in multiset(again);
      assert r.released[again[0]] == old(r.released)[again[0]] + multiset(nodes)[again[0]] + multiset(again)[again[0]];
    }
  }

  /** Two components, and memory for one owner only: the second component is released twice. */
  method SecondReleasedTwice(first: string, second: string) returns (a: Comp, b: Comp, r: Releaser)
    ensures r.released == multiset{a, b, b} && a != b
  {
    a := new Node(first);
    b := new Node(second);
    a.next := b;
    r := new Releaser();
    LoadAndDrop(a, [a, b], 1, 2, r);
    assert [a, b][1..] == [b];
    assert multiset([a, b]) + multiset([b]) == multiset{a, b, b};
  }
}
