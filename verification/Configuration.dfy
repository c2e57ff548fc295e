/** Argument lists and the options that carry them. */
module Configuration {
  import opened Errors
  import opened Integers
  import opened Chains

  // ----- argument nodes and the gpgme functions that make and release them -----

  datatype ConfType = NoneType | StringType | Int32Type | UInt32Type

  /** What a gpgme_conf_arg holds: nothing (its no_arg flag), a string, or the 32 bits that the members for
      counts, signed and unsigned integers have in common. `Garbage` is what reading a string as a number
      or a number as a string yields. */
  datatype Payload = NoArg | Text(text: string) | Word(bits: UInt32) | Garbage

  predicate HasType(p: Payload, t: ConfType) {
    match p
    case NoArg => true
    case Text(_) => t.StringType?
    case Word(_) => !t.StringType?
    case Garbage => false
  }

  predicate AllHaveType(values: seq<Payload>, t: ConfType) {
    forall i :: 0 <= i < |values| ==> HasType(values[i], t)
  }

  /** What is read as a value of type t. */
  function ReadAs(p: Payload, t: ConfType): Payload {
    if p.NoArg? then NoArg
    else if t.StringType? then if p.Text? then p else Garbage
    else if p.Word? then p
    else Garbage
  }

  function AllReadAs(values: seq<Payload>, t: ConfType): (r: seq<Payload>)
    ensures |r| == |values|
    ensures forall i :: 0 <= i < |r| ==> r[i] == ReadAs(values[i], t)
  {
    seq(|values|, i requires 0 <= i < |values| => ReadAs(values[i], t))
  }

  /** Reading a list as one of type t yields the list, with a type it has, if and only if its values fit. */
  lemma ReadAsExactIff(values: seq<Payload>, t: ConfType)
    ensures AllReadAs(values, t) == values && Garbage !in values <==> AllHaveType(values, t)
    ensures AllHaveType(AllReadAs(values, t), t) <==> AllHaveType(values, t)
  {
    var r := AllReadAs(values, t);
    if AllHaveType(values, t) {
      assert r == values;
    }
    if AllHaveType(r, t) {
      assert forall i :: 0 <= i < |values| ==> HasType(r[i], t) && r[i] == ReadAs(values[i], t);
    }
  }

  type Arg = Node<Payload>
  type MaybeArg = Node?<Payload>

  ghost function Elements(nodes: seq<Arg>): set<Arg> {
    set n | n in nodes
  }

  lemma ElementsSnoc(nodes: seq<Arg>, n: Arg)
    ensures Elements(nodes + [n]) == Elements(nodes) + {n}
  {
  }

  /** Whether the k-th of the coming allocations succeeds; beyond the end of the plan every one does. */
  predicate Granted(plan: seq<bool>, k: nat) {
    |plan| <= k || plan[k]
  }

  /** The plan once k allocations were attempted. */
  function Later(plan: seq<bool>, k: nat): seq<bool> {
    if |plan| <= k then [] else plan[k..]
  }

  lemma LaterStep(plan: seq<bool>, k: nat)
    ensures Granted(Later(plan, k), 0) == Granted(plan, k)
    ensures Later(Later(plan, k), 1) == Later(plan, k + 1)
  {
  }

  predicate AllGranted(plan: seq<bool>, n: nat) {
    forall k :: 0 <= k < n ==> Granted(plan, k)
  }

  /** What is left of the plan after n allocations, or after the first of them that failed. */
  function AfterCopy(plan: seq<bool>, n: nat): seq<bool>
    decreases n
  {
    if n == 0 then plan
    else if Granted(plan, 0) then AfterCopy(Later(plan, 1), n - 1)
    else Later(plan, 1)
  }

  /** What is left is the plan behind the n-th allocation, or behind the first that failed. */
  lemma {:induction false} AfterCopyIs(plan: seq<bool>, n: nat, k: nat)
    requires k <= n && AllGranted(plan, k) && (k < n ==> !Granted(plan, k))
    ensures AfterCopy(plan, n) == if n == 0 then plan else Later(plan, if k < n then k + 1 else n)
    decreases n
  {
    if 0 < n && 0 < k {
      assert forall i :: 0 <= i < k - 1 ==> Granted(Later(plan, 1), i) == Granted(plan, i + 1);
      AfterCopyIs(Later(plan, 1), n - 1, k - 1);
    }
  }

  /** libgpgme's argument nodes: which are allocated and not yet released. */
  class Gpgconf {
    var plan: seq<bool>
    ghost var live: set<Arg>

    constructor (plan: seq<bool>)
      ensures this.plan == plan && live == {}
    {
      this.plan, live := plan, {};
    }

    /** gpgme_conf_arg_new; null stands for an error. */
    method ArgNew(value: Payload) returns (arg: MaybeArg)
      modifies this
      ensures plan == Later(old(plan), 1) && (arg != null <==> Granted(old(plan), 0))
      ensures arg != null ==> fresh(arg) && arg.value == value && arg.next == null
      ensures live == old(live) + (if arg == null then {} else {arg})
    {
      arg := null;
      if Granted(plan, 0) {
        arg := new Node(value);
        live := live + {arg};
      }
      plan := Later(plan, 1);
    }

    /** gpgme_conf_arg_release: every node of the list must still be allocated. */
    method ArgRelease(head: MaybeArg, ghost nodes: seq<Arg>)
      requires IsChain(head, nodes) && Elements(nodes) <= live
      modifies this`live
      ensures live == old(live) - Elements(nodes)
    {
      var a := head;
      ghost var k := 0;
      while a != null
        invariant k <= |nodes| && a == Successor(nodes, k - 1)
        invariant live == old(live) - Elements(nodes[..k])
        invariant forall i :: k <= i < |nodes| ==> nodes[i] in live
        decreases |nodes| - k
      {
        assert a == nodes[k] && a.next == Successor(nodes, k);
        var next := a.next;
        live := live - {a};
        assert nodes[..k + 1] == nodes[..k] + [a];
        a := next;
        k := k + 1;
      }
      assert nodes[..k] == nodes;
    }
  }

  // ----- building lists -----

  /** A list under construction: a chain holding `contents`, with a pointer to its last node. */
  ghost predicate Building(result: MaybeArg, last: MaybeArg, nodes: seq<Arg>, contents: seq<Payload>)
    reads nodes
  {
    && IsChain(result, nodes)
    && (last == if nodes == [] then null else nodes[|nodes| - 1])
    && |contents| == |nodes|
    && forall i :: 0 <= i < |nodes| ==> nodes[i].value == contents[i]
  }

  /** Allocates a node and hangs it behind the last one; nothing happens if the allocation fails. */
  method AppendNew(result: MaybeArg, last: MaybeArg, ghost nodes: seq<Arg>, ghost contents: seq<Payload>,
                   value: Payload, g: Gpgconf)
    returns (result': MaybeArg, last': MaybeArg, ghost nodes': seq<Arg>, ok: bool)
    requires Building(result, last, nodes, contents)
    modifies g, Singleton(last)`next
    ensures ok == Granted(old(g.plan), 0) && g.plan == Later(old(g.plan), 1)
    ensures Building(result', last', nodes', contents + (if ok then [value] else []))
    ensures if ok then last' != null && fresh(last') && nodes' == nodes + [last'] && g.live == old(g.live) + {last'}
            else last' == last && nodes' == nodes && g.live == old(g.live)
    ensures ok ==> Elements(nodes') == Elements(nodes) + {last'}
  {
    result', last', nodes' := result, last, nodes;
    var arg := g.ArgNew(value);
    ok := arg != null;
    if ok {
      result' := Append(result, last, arg, nodes);
      last' := arg;
      nodes' := nodes + [arg];
      ElementsSnoc(nodes, arg);
    }
  }

  /** The loop of mygpgme_conf_arg_copy after `|copy|` turns: `copy` holds what was read from the first nodes
      of the source, and `a` is the next of them. */
  ghost predicate Copying(other: MaybeArg, source: seq<Arg>, t: ConfType, wanted: seq<Payload>, result: MaybeArg,
                          last: MaybeArg, copy: seq<Arg>, a: MaybeArg)
    reads source, copy
  {
    && IsChain(other, source) && AllReadAs(Values(source), t) == wanted
    && |copy| <= |source| && a == Successor(source, |copy| - 1)
    && Building(result, last, copy, wanted[..|copy|])
  }

  /** The first k of n allocations of the plan succeeded, and the rest is to come. */
  predicate Granting(plan: seq<bool>, k: nat, rest: seq<bool>, n: nat) {
    k <= n && AllGranted(plan, k) && rest == Later(plan, k) && AfterCopy(plan, n) == AfterCopy(rest, n - k)
  }

  lemma GrantingStart(plan: seq<bool>, n: nat)
    ensures Granting(plan, 0, plan, n)
  {
    assert Later(plan, 0) == plan;
  }

  lemma GrantingStep(plan: seq<bool>, k: nat, rest: seq<bool>, n: nat)
    requires Granting(plan, k, rest, n) && k < n
    ensures if Granted(rest, 0) then Granting(plan, k + 1, Later(rest, 1), n)
            else !AllGranted(plan, n) && AfterCopy(plan, n) == Later(rest, 1)
  {
    LaterStep(plan, k);
  }

  /** One turn of the loop. */
  method CopyOne(ghost plan: seq<bool>, ghost other: MaybeArg, ghost source: seq<Arg>, t: ConfType,
                 ghost wanted: seq<Payload>, result: MaybeArg, last: MaybeArg, ghost copy: seq<Arg>, a: Arg, g: Gpgconf)
    returns (result': MaybeArg, last': MaybeArg, ghost copy': seq<Arg>, next: MaybeArg, ok: bool)
    requires Copying(other, source, t, wanted, result, last, copy, a) && (last != null ==> last !in source)
    requires Granting(plan, |copy|, g.plan, |source|)
    modifies g, Singleton(last)`next
    ensures if ok then Granting(plan, |copy'|, g.plan, |source|)
            else !AllGranted(plan, |source|) && g.plan == AfterCopy(plan, |source|)
    ensures if ok then
              && last' != null && fresh(last') && copy' == copy + [last'] && g.live == old(g.live) + {last'}
              && |copy| < |source| && Copying(other, source, t, wanted, result', last', copy', next)
            else copy' == copy && g.live == old(g.live) && IsChain(result', copy)
    ensures ok ==> Elements(copy') == Elements(copy) + {last'}
  {
    ghost var k := |copy|;
    assert a == source[k] && a.next == Successor(source, k);
    assert wanted[..k + 1] == wanted[..k] + [ReadAs(a.value, t)];
    GrantingStep(plan, k, g.plan, |source|);
    result', last', copy', ok := AppendNew(result, last, copy, wanted[..k], ReadAs(a.value, t), g);
    next := a.next;
  }

  /** The loop of mygpgme_conf_arg_copy up to the end of the source or the first failed allocation. */
  method CopyNodes(other: MaybeArg, ghost source: seq<Arg>, t: ConfType, g: Gpgconf)
    returns (result: MaybeArg, ghost copy: seq<Arg>, ok: bool)
    requires IsChain(other, source)
    modifies g
    ensures IsChain(result, copy)
    ensures fresh(Elements(copy))
    ensures ok <==> AllGranted(old(g.plan), |source|)
    ensures ok ==> Values(copy) == AllReadAs(Values(source), t)
    ensures g.live == old(g.live) + Elements(copy) && g.plan == AfterCopy(old(g.plan), |source|)
  {
    ghost var wanted := AllReadAs(Values(source), t);
    var last: MaybeArg := null;
    var a := other;
    result, copy, ok := null, [], true;
    GrantingStart(g.plan, |source|);
    while a != null
      invariant Copying(other, source, t, wanted, result, last, copy, a) && (last != null ==> fresh(last))
      invariant fresh(Elements(copy)) && g.live == old(g.live) + Elements(copy)
      invariant Granting(old(g.plan), |copy|, g.plan, |source|)
      decreases |source| - |copy|
    {
      result, last, copy, a, ok := CopyOne(old(g.plan), other, source, t, wanted, result, last, copy, a, g);
      if !ok {
        return;
      }
    }
    assert wanted[..|copy|] == wanted;
  }

  /** mygpgme_conf_arg_copy: a chain of new nodes with the values read from the source, or null with
      everything built so far released. The source chain is not written to. */
  method CopyArgs(other: MaybeArg, ghost source: seq<Arg>, t: ConfType, g: Gpgconf)
    returns (result: MaybeArg, ghost copy: seq<Arg>)
    requires IsChain(other, source)
    modifies g
    ensures IsChain(result, copy)
    ensures fresh(Elements(copy))
    ensures if AllGranted(old(g.plan), |source|)
            then Values(copy) == AllReadAs(Values(source), t) && g.live == old(g.live) + Elements(copy)
            else copy == [] && g.live == old(g.live)
    ensures g.plan == AfterCopy(old(g.plan), |source|)
  {
    var ok;
    result, copy, ok := CopyNodes(other, source, t, g);
    if !ok {
      assert old(g.live) !! Elements(copy);
      g.ArgRelease(result, copy);
      return null, [];
    }
  }

  // ----- lists from vectors, and back -----

  /** The values whose allocation succeeded, in order. */
  function Kept<T>(values: seq<T>, plan: seq<bool>): seq<T> {
    if values == [] then []
    else
      var k := |values| - 1;
      Kept(values[..k], plan) + (if Granted(plan, k) then [values[k]] else [])
  }

  lemma KeptStep<T>(values: seq<T>, k: nat, plan: seq<bool>)
    requires k < |values|
    ensures Kept(values[..k + 1], plan)
         == Kept(values[..k], plan) + (if Granted(plan, k) then [values[k]] else [])
  {
    assert values[..k + 1][..k] == values[..k];
  }

  lemma {:induction false} KeptAll<T>(values: seq<T>, plan: seq<bool>)
    requires AllGranted(plan, |values|)
    ensures Kept(values, plan) == values
  {
    if values != [] {
      KeptAll(values[..|values| - 1], plan);
    }
  }

  /** Where the allocations succeeded. */
  predicate AreGranted(places: seq<nat>, n: nat, plan: seq<bool>) {
    && (forall j :: 0 <= j < |places| ==> places[j] < n && Granted(plan, places[j]))
    && (forall i, j :: 0 <= i < j < |places| ==> places[i] < places[j])
    && (forall k :: 0 <= k < n && Granted(plan, k) ==> k in places)
  }

  function Places(n: nat, plan: seq<bool>): (places: seq<nat>)
    ensures forall j :: 0 <= j < |places| ==> places[j] < n
  {
    if n == 0 then []
    else Places(n - 1, plan) + (if Granted(plan, n - 1) then [n - 1] else [])
  }

  lemma {:induction false} PlacesRise(n: nat, plan: seq<bool>, i: nat, j: nat)
    requires i <= j < |Places(n, plan)|
    ensures Granted(plan, Places(n, plan)[j])
    ensures i < j ==> Places(n, plan)[i] < Places(n, plan)[j]
  {
    var front := Places(n - 1, plan);
    if j < |front| {
      PlacesRise(n - 1, plan, i, j);
    } else if i < j {
      assert Places(n, plan)[i] == front[i];
    }
  }

  lemma {:induction false} NoPlaceMissing(n: nat, plan: seq<bool>, k: nat)
    requires k < n && Granted(plan, k)
    ensures k in Places(n, plan)
  {
    if k < n - 1 {
      NoPlaceMissing(n - 1, plan, k);
    } else {
      assert Places(n, plan)[|Places(n - 1, plan)|] == k;
    }
  }

  lemma PlacesAreGranted(n: nat, plan: seq<bool>)
    ensures AreGranted(Places(n, plan), n, plan)
  {
    forall i: nat, j: nat | i <= j < |Places(n, plan)|
      ensures Granted(plan, Places(n, plan)[j])
      ensures i < j ==> Places(n, plan)[i] < Places(n, plan)[j]
    {
      PlacesRise(n, plan, i, j);
    }
    forall k: nat | k < n && Granted(plan, k)
      ensures k in Places(n, plan)
    {
      NoPlaceMissing(n, plan, k);
    }
  }

  lemma {:induction false} KeptLength<T>(values: seq<T>, plan: seq<bool>)
    ensures |Kept(values, plan)| == |Places(|values|, plan)|
  {
    if values != [] {
      KeptLength(values[..|values| - 1], plan);
    }
  }

  lemma {:induction false} KeptAt<T>(values: seq<T>, plan: seq<bool>, j: nat)
    requires j < |Kept(values, plan)| == |Places(|values|, plan)|
    ensures Kept(values, plan)[j] == values[Places(|values|, plan)[j]]
  {
    var front := values[..|values| - 1];
    KeptLength(front, plan);
    if j < |Kept(front, plan)| {
      KeptAt(front, plan, j);
    }
  }

  /** What is kept are exactly the elements at the places where the allocation succeeded, in order. */
  lemma KeptIs<T>(values: seq<T>, plan: seq<bool>)
    ensures var places := Places(|values|, plan);
            && AreGranted(places, |values|, plan) && |Kept(values, plan)| == |places|
            && forall j :: 0 <= j < |places| ==> Kept(values, plan)[j] == values[places[j]]
  {
    PlacesAreGranted(|values|, plan);
    KeptLength(values, plan);
    forall j: nat | j < |Places(|values|, plan)|
      ensures Kept(values, plan)[j] == values[Places(|values|, plan)[j]]
    {
      KeptAt(values, plan, j);
    }
  }

  function Mapped<T, R>(f: T -> R, s: seq<T>): (r: seq<R>)
    ensures |r| == |s|
  {
    seq(|s|, i requires 0 <= i < |s| => f(s[i]))
  }

  lemma {:induction false} KeptMapped<T, R>(f: T -> R, values: seq<T>, plan: seq<bool>)
    ensures Kept(Mapped(f, values), plan) == Mapped(f, Kept(values, plan))
  {
    if values != [] {
      var k := |values| - 1;
      KeptMapped(f, values[..k], plan);
      assert Mapped(f, values)[..k] == Mapped(f, values[..k]);
    }
  }

  /** make_argument for a vector: a failed allocation drops its element and goes on. */
  method MakeList(values: seq<Payload>, g: Gpgconf) returns (result: MaybeArg, ghost nodes: seq<Arg>)
    modifies g
    ensures IsChain(result, nodes) && Values(nodes) == Kept(values, old(g.plan))
    ensures fresh(Elements(nodes))
    ensures g.live == old(g.live) + Elements(nodes)
    ensures g.plan == Later(old(g.plan), |values|)
  {
    var last: MaybeArg := null;
    result, nodes := null, [];
    for k := 0 to |values|
      invariant Building(result, last, nodes, Kept(values[..k], old(g.plan)))
      invariant last != null ==> fresh(last)
      invariant forall n :: n in nodes ==> fresh(n)
      invariant g.live == old(g.live) + Elements(nodes)
      invariant g.plan == Later(old(g.plan), k)
    {
      LaterStep(old(g.plan), k);
      KeptStep(values, k, old(g.plan));
      var ok;
      result, last, nodes, ok := AppendNew(result, last, nodes, Kept(values[..k], old(g.plan)), values[k], g);
    }
    assert values[..|values|] == values;
  }

  /** Vector elements as make_argument stores them; a null string makes a node without argument. */
  function PutInt(i: Int32): Payload {
    Word(if i < 0 then i + 0x1_0000_0000 else i)
  }

  function PutUInt(u: UInt32): Payload {
    Word(u)
  }

  function PutString(s: Option<string>): Payload {
    if s.Some? then Text(s.value) else NoArg
  }

  /** Union members as the accessors read them: zero or null where no argument was given. */
  function IntOf(p: Payload): Int32 {
    if !p.Word? then 0
    else if p.bits < 0x8000_0000 then p.bits
    else p.bits - 0x1_0000_0000
  }

  function UIntOf(p: Payload): UInt32 {
    if p.Word? then p.bits else 0
  }

  function StringOf(p: Payload): Option<string> {
    if p.Text? then Some(p.text) else None
  }

  /** An Argument of an option of type `t` that still exists; it owns its list. */
  class Argument {
    const t: ConfType
    var arg: MaybeArg
    ghost var nodes: seq<Arg>

    ghost predicate Valid()
      reads this, nodes
    {
      IsChain(arg, nodes) && AllHaveType(Values(nodes), t)
    }

    /** Argument(comp, opt, arg, owns = true). */
    constructor Owning(t: ConfType, arg: MaybeArg, ghost nodes: seq<Arg>)
      requires IsChain(arg, nodes) && AllHaveType(Values(nodes), t)
      ensures Valid() && this.t == t && this.nodes == nodes
    {
      this.t, this.arg, this.nodes := t, arg, nodes;
    }

    /** Argument(comp, opt, arg, owns = false), and the copy constructor. */
    constructor Copying(t: ConfType, arg: MaybeArg, ghost source: seq<Arg>, g: Gpgconf)
      requires IsChain(arg, source) && AllHaveType(Values(source), t)
      modifies g
      ensures Valid() && this.t == t && g.plan == AfterCopy(old(g.plan), |source|)
      ensures fresh(Elements(nodes)) && Elements(nodes) !! Elements(source)
      ensures if AllGranted(old(g.plan), |source|)
              then Values(nodes) == Values(source) && g.live == old(g.live) + Elements(nodes)
              else nodes == [] && g.live == old(g.live)
    {
      this.t := t;
      ReadAsExactIff(Values(source), t);
      var a, copied := CopyArgs(arg, source, t, g);
      this.arg, nodes := a, copied;
    }

    method Destroy(g: Gpgconf)
      requires Valid() && Elements(nodes) <= g.live
      modifies g`live
      ensures g.live == old(g.live) - Elements(nodes)
    {
      g.ArgRelease(arg, nodes);
    }

    method NumElements() returns (n: nat)
      requires Valid()
      ensures n == |nodes|
    {
      n := Length(arg, nodes);
    }

    /** stringValues, intValues and uintValues: empty unless the option has the wanted type. */
    method ValuesAs<R>(wanted: ConfType, read: Payload -> R) returns (result: seq<R>)
      requires Valid()
      ensures result == if t == wanted then Mapped(read, Values(nodes)) else []
    {
      if arg == null || t != wanted {
        return [];
      }
      result := Collect(arg, nodes, read);
    }

    /** stringValue, intValue and uintValue: the element at `idx`, or zero past the end. */
    method ValueAt<R>(wanted: ConfType, read: Payload -> R, zero: R, idx: nat) returns (result: R)
      requires Valid()
      ensures result == if t == wanted && idx < |nodes| then read(nodes[idx].value) else zero
    {
      if arg == null || t != wanted {
        return zero;
      }
      var a := At(arg, nodes, idx);
      result := if a != null then read(a.value) else zero;
    }
  }

  /** create*ListArgument, which do not ask for the option's type, read back through the accessors, which
      do: if that is the wanted type, what was stored of the elements whose allocation succeeded is read,
      in order. */
  method ListTransfer<R, S>(t: ConfType, values: seq<R>, put: R -> Payload, wanted: ConfType, read: Payload -> S,
                            zero: S, idx: nat, g: Gpgconf) returns (back: seq<S>, count: nat, one: S)
    requires forall v :: v in values ==> HasType(put(v), t)
    modifies g
    ensures count == |Kept(values, old(g.plan))|
    ensures back == if t == wanted then Mapped(v => read(put(v)), Kept(values, old(g.plan))) else []
    ensures one == if idx < |back| then back[idx] else zero
  {
    var list, nodes := MakeList(Mapped(put, values), g);
    ListContents(t, values, put, read, old(g.plan), Values(nodes));
    var a := new Argument.Owning(t, list, nodes);
    back := a.ValuesAs(wanted, read);
    count := a.NumElements();
    one := a.ValueAt(wanted, read, zero, idx);
  }

  lemma {:induction false} ListContents<R, S>(t: ConfType, values: seq<R>, put: R -> Payload, read: Payload -> S,
                                              plan: seq<bool>, stored: seq<Payload>)
    requires forall v :: v in values ==> HasType(put(v), t)
    requires stored == Kept(Mapped(put, values), plan)
    ensures AllHaveType(stored, t)
    ensures Mapped(read, stored) == Mapped(v => read(put(v)), Kept(values, plan))
  {
    KeptMapped(put, values, plan);
    KeptIsSubset(values, plan);
    var kept := Kept(values, plan);
    assert forall i :: 0 <= i < |stored| ==> kept[i] in values && stored[i] == put(kept[i]);
  }

  lemma {:induction false} KeptIsSubset<T>(values: seq<T>, plan: seq<bool>)
    ensures forall v :: v in Kept(values, plan) ==> v in values
  {
    if values != [] {
      KeptIsSubset(values[..|values| - 1], plan);
    }
  }

  /** On an option of the matching type the elements whose allocation succeeded come back in order, and all
      of them if every one did. */
  method ListRoundTrip<R>(t: ConfType, values: seq<R>, put: R -> Payload, read: Payload -> R, zero: R, idx: nat,
                          g: Gpgconf) returns (back: seq<R>, count: nat, one: R)
    requires forall v :: v in values ==> HasType(put(v), t) && read(put(v)) == v
    modifies g
    ensures back == Kept(values, old(g.plan))
    ensures AllGranted(old(g.plan), |values|) ==> back == values
    ensures count == |back|
    ensures one == if idx < |back| then back[idx] else zero
  {
    KeptIsSubset(values, g.plan);
    if AllGranted(g.plan, |values|) {
      KeptAll(values, g.plan);
    }
    back, count, one := ListTransfer(t, values, put, t, read, zero, idx, g);
  }

  /** The three element types meet the round trip's condition. An integer of the other signedness, which an
      option of either numeric type accepts, is read back if and only if both signs can express it. */
  lemma ElementsReadBack(i: Int32, u: UInt32, s: Option<string>)
    ensures HasType(PutInt(i), Int32Type) && IntOf(PutInt(i)) == i
    ensures HasType(PutUInt(u), UInt32Type) && UIntOf(PutUInt(u)) == u
    ensures HasType(PutString(s), StringType) && StringOf(PutString(s)) == s
    ensures HasType(PutInt(i), UInt32Type) && (UIntOf(PutInt(i)) == i <==> 0 <= i)
    ensures HasType(PutUInt(u), Int32Type) && (IntOf(PutUInt(u)) == u <==> u < 0x8000_0000)
    ensures !HasType(PutInt(i), StringType) && !HasType(PutUInt(u), StringType)
    ensures s.Some? ==> !HasType(PutString(s), Int32Type) && !HasType(PutString(s), UInt32Type)
  {
  }
}
