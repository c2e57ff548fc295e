/** EventLoopInteractor: the registry of I/O callbacks, its watchers, and re-entrant dispatch. */
module EventLoop {
  import opened Errors
  import opened Sequences

  // ----- the registry on values -----

  /** A registration. `id` is its number among the successful ones; `addr` is where its record was
      allocated, which is the tag gpgme gets for it. */
  datatype Entry = Entry(id: nat, addr: nat, fd: int, dir: int, fnc: nat, fncData: nat, externalTag: nat)

  datatype Call = Call(fnc: nat, fncData: nat, fd: int)

  /** `log` is every successful registration, `unregistered` the ids of those that were removed, in that
      order, `live` the tags of the watchers that exist, `calls` the callbacks run. */
  datatype Registry = Registry(entries: seq<Entry>, log: seq<Entry>, unregistered: seq<nat>,
                               live: set<nat>, calls: seq<Call>)

  const EMPTY := Registry([], [], [], {}, [])

  /** What gpgme, the event loop, or a running callback may do. For a registration, `watcher` is what
      registerWatcher answers and `addr` what `new` would return. */
  datatype Op =
    | Register(fd: int, dir: int, fnc: nat, fncData: nat, watcher: Option<nat>, addr: nat)
    | Remove(tag: nat)
    | Dispatch(fd: int, read: bool, reaction: seq<Op>)

  predicate Matches(e: Entry, fd: int, read: bool) {
    e.fd == fd && (e.dir != 0) == read
  }

  /** The position of the first matching entry, or the length. */
  function FirstMatch(entries: seq<Entry>, fd: int, read: bool): (k: nat)
    ensures k <= |entries|
    ensures forall j :: 0 <= j < k ==> !Matches(entries[j], fd, read)
    ensures k < |entries| ==> Matches(entries[k], fd, read)
  {
    FirstWhere(entries, (e: Entry) => Matches(e, fd, read))
  }

  /** The position of the entry whose record is at `tag`, or the length. */
  function Position(entries: seq<Entry>, tag: nat): (k: nat)
    ensures k <= |entries|
    ensures forall j :: 0 <= j < k ==> entries[j].addr != tag
    ensures k < |entries| ==> entries[k].addr == tag
  {
    FirstWhere(entries, (e: Entry) => e.addr == tag)
  }

  function Without(entries: seq<Entry>, k: nat): seq<Entry>
    requires k < |entries|
  {
    entries[..k] + entries[k + 1..]
  }

  function NewEntry(r: Registry, op: Op): Entry
    requires op.Register? && op.watcher.Some?
  {
    Entry(|r.log|, op.addr, op.fd, op.dir, op.fnc, op.fncData, op.watcher.value)
  }

  function Registered(r: Registry, op: Op): Registry
    requires op.Register?
  {
    if op.watcher.Some? then
      var e := NewEntry(r, op);
      r.(entries := r.entries + [e], log := r.log + [e], live := r.live + {e.externalTag})
    else r
  }

  function Removed(r: Registry, tag: nat): Registry {
    var k := Position(r.entries, tag);
    if k < |r.entries| then
      r.(entries := Without(r.entries, k), unregistered := r.unregistered + [r.entries[k].id],
         live := r.live - {r.entries[k].externalTag})
    else r
  }

  function Called(r: Registry, e: Entry, fd: int): Registry {
    r.(calls := r.calls + [Call(e.fnc, e.fncData, fd)])
  }

  function Apply(r: Registry, op: Op): Registry
    decreases op, 1
  {
    match op
    case Register(_, _, _, _, _, _) => Registered(r, op)
    case Remove(tag) => Removed(r, tag)
    case Dispatch(fd, read, reaction) =>
      var k := FirstMatch(r.entries, fd, read);
      if k < |r.entries| then ApplyAll(Called(r, r.entries[k], fd), reaction) else r
  }

  function ApplyAll(r: Registry, ops: seq<Op>): Registry
    decreases ops, 0
  {
    if ops == [] then r else ApplyAll(Apply(r, ops[0]), ops[1..])
  }

  function Addresses(entries: seq<Entry>): set<nat> {
    set e | e in entries :: e.addr
  }

  /** What the world can do: a new watcher's tag is not that of a live watcher, and a new record is not
      allocated where a live record is. The tag of a dead watcher and the address of a deleted record may
      come back. */
  predicate Possible(r: Registry, op: Op)
    decreases op, 1
  {
    match op
    case Register(_, _, _, _, watcher, addr) =>
      watcher.Some? ==> watcher.value !in r.live && addr !in Addresses(r.entries)
    case Remove(_) => true
    case Dispatch(fd, read, reaction) =>
      var k := FirstMatch(r.entries, fd, read);
      k < |r.entries| ==> PossibleAll(Called(r, r.entries[k], fd), reaction)
  }

  predicate PossibleAll(r: Registry, ops: seq<Op>)
    decreases ops, 0
  {
    ops == [] || (Possible(r, ops[0]) && PossibleAll(Apply(r, ops[0]), ops[1..]))
  }

  // ----- what every history keeps -----

  function Ids(ids: seq<nat>): set<nat> {
    set i | i in ids
  }

  /** The registrations whose id is not among the removed ones, in registration order. */
  function Survivors(log: seq<Entry>, removed: set<nat>): seq<Entry> {
    if log == [] then []
    else
      var last := log[|log| - 1];
      Survivors(log[..|log| - 1], removed) + (if last.id in removed then [] else [last])
  }

  function Tags(entries: seq<Entry>): set<nat> {
    set e | e in entries :: e.externalTag
  }

  predicate Numbered(log: seq<Entry>) {
    forall i :: 0 <= i < |log| ==> log[i].id == i
  }

  predicate DistinctTags(entries: seq<Entry>) {
    forall i, j :: 0 <= i < j < |entries| ==> entries[i].externalTag != entries[j].externalTag
  }

  /** An address is used again only after the earlier registration there was removed. */
  predicate ReusedAfterRemoval(log: seq<Entry>, unregistered: seq<nat>) {
    forall i, j :: 0 <= i < j < |log| && log[i].addr == log[j].addr ==> i in unregistered
  }

  predicate NoRepeats(ids: seq<nat>) {
    forall i, j :: 0 <= i < j < |ids| ==> ids[i] != ids[j]
  }

  /** The entries are exactly the registrations not yet removed, in order, no two of them at one address;
      each removal unregistered one registration, once; and the live watchers are exactly those of the
      entries. */
  predicate Consistent(r: Registry) {
    && Numbered(r.log)
    && r.entries == Survivors(r.log, Ids(r.unregistered))
    && NoRepeats(r.unregistered)
    && (forall id :: id in r.unregistered ==> id < |r.log|)
    && r.live == Tags(r.entries)
    && DistinctTags(r.entries)
    && ReusedAfterRemoval(r.log, r.unregistered)
  }

  lemma {:induction false} SurvivorsAre(log: seq<Entry>, removed: set<nat>)
    requires Numbered(log)
    ensures forall e :: e in Survivors(log, removed) <==> e in log && e.id !in removed
    ensures forall i, j :: 0 <= i < j < |Survivors(log, removed)| ==>
              Survivors(log, removed)[i].id < Survivors(log, removed)[j].id
  {
    if log != [] {
      SurvivorsAre(log[..|log| - 1], removed);
      assert log == log[..|log| - 1] + [log[|log| - 1]];
    }
  }

  lemma {:induction false} SurvivorsIgnoreLater(log: seq<Entry>, removed: set<nat>, id: nat)
    requires Numbered(log) && |log| <= id
    ensures Survivors(log, removed + {id}) == Survivors(log, removed)
  {
    if log != [] {
      SurvivorsIgnoreLater(log[..|log| - 1], removed, id);
    }
  }

  lemma WithoutFromFront(front: seq<Entry>, back: seq<Entry>, k: nat)
    requires k < |front|
    ensures Without(front + back, k) == Without(front, k) + back
  {
  }

  lemma WithoutLast(front: seq<Entry>, last: Entry)
    ensures Without(front + [last], |front|) == front
  {
  }

  lemma {:induction false} SurvivorsWithout(log: seq<Entry>, removed: set<nat>, k: nat)
    requires Numbered(log) && k < |Survivors(log, removed)|
    ensures Survivors(log, removed + {Survivors(log, removed)[k].id}) == Without(Survivors(log, removed), k)
  {
    var front, last := log[..|log| - 1], log[|log| - 1];
    var before, id := Survivors(front, removed), Survivors(log, removed)[k].id;
    SurvivorsAre(front, removed);
    if k < |before| {
      assert before[k] in before;
      assert id < last.id;
      SurvivorsWithout(front, removed, k);
      WithoutFromFront(before, if last.id in removed then [] else [last], k);
    } else {
      assert last.id !in removed && k == |before| && id == last.id;
      SurvivorsIgnoreLater(front, removed, id);
      WithoutLast(before, last);
    }
  }

  lemma SurvivorsSnoc(log: seq<Entry>, removed: set<nat>, e: Entry)
    requires e.id !in removed
    ensures Survivors(log + [e], removed) == Survivors(log, removed) + [e]
  {
    assert (log + [e])[..|log|] == log;
  }

  lemma TagsSnoc(entries: seq<Entry>, e: Entry)
    requires DistinctTags(entries) && e.externalTag !in Tags(entries)
    ensures Tags(entries + [e]) == Tags(entries) + {e.externalTag}
    ensures DistinctTags(entries + [e])
  {
    assert forall i :: 0 <= i < |entries| ==> entries[i] in entries && entries[i].externalTag in Tags(entries);
  }

  lemma RegisterKeeps(r: Registry, op: Op)
    requires Consistent(r) && op.Register? && Possible(r, op)
    ensures Consistent(Registered(r, op))
  {
    if op.watcher.Some? {
      var e := NewEntry(r, op);
      SurvivorsSnoc(r.log, Ids(r.unregistered), e);
      TagsSnoc(r.entries, e);
      ReuseSnoc(r, e);
    }
  }

  lemma ReuseSnoc(r: Registry, e: Entry)
    requires Consistent(r) && e.addr !in Addresses(r.entries)
    ensures ReusedAfterRemoval(r.log + [e], r.unregistered)
  {
    SurvivorsAre(r.log, Ids(r.unregistered));
    forall i | 0 <= i < |r.log| && r.log[i].addr == e.addr
      ensures i in r.unregistered
    {
      assert r.log[i] in r.log && r.log[i] !in r.entries;
    }
  }

  /** What removing the entry at k does to the books. */
  lemma BooksAfterRemoval(r: Registry, k: nat)
    requires Consistent(r) && k < |r.entries|
    ensures var e, unregistered := r.entries[k], r.unregistered + [r.entries[k].id];
            && NoRepeats(unregistered)
            && (forall id :: id in unregistered ==> id < |r.log|)
            && Ids(unregistered) == Ids(r.unregistered) + {e.id}
            && ReusedAfterRemoval(r.log, unregistered)
  {
    SurvivorsAre(r.log, Ids(r.unregistered));
    assert r.entries[k] in r.entries && r.entries[k] in r.log;
  }

  lemma RemoveKeeps(r: Registry, tag: nat)
    requires Consistent(r)
    ensures Consistent(Removed(r, tag))
  {
    var k := Position(r.entries, tag);
    if k < |r.entries| {
      BooksAfterRemoval(r, k);
      SurvivorsWithout(r.log, Ids(r.unregistered), k);
      TagsWithout(r.entries, k);
    }
  }

  lemma TagsWithout(entries: seq<Entry>, k: nat)
    requires k < |entries| && DistinctTags(entries)
    ensures Tags(Without(entries, k)) == Tags(entries) - {entries[k].externalTag}
    ensures DistinctTags(Without(entries, k))
  {
    var rest := Without(entries, k);
    assert forall i :: 0 <= i < |rest| ==> rest[i] == entries[if i < k then i else i + 1];
    forall e | e in entries && e.externalTag != entries[k].externalTag
      ensures e in rest
    {
      var i :| 0 <= i < |entries| && entries[i] == e;
      assert rest[if i < k then i else i - 1] == e;
    }
  }

  /** Every operation keeps the registry consistent, a dispatch included, whatever registrations,
      removals and further dispatches its callback performs. */
  lemma {:induction false} ApplyKeeps(r: Registry, op: Op)
    requires Consistent(r) && Possible(r, op)
    ensures Consistent(Apply(r, op)) && r.log <= Apply(r, op).log && r.calls <= Apply(r, op).calls
    ensures r.unregistered <= Apply(r, op).unregistered
    decreases op, 1
  {
    match op {
      case Register(_, _, _, _, _, _) => RegisterKeeps(r, op);
      case Remove(tag) => RemoveKeeps(r, tag);
      case Dispatch(fd, read, reaction) =>
        var k := FirstMatch(r.entries, fd, read);
        if k < |r.entries| {
          ApplyAllKeeps(Called(r, r.entries[k], fd), reaction);
        }
    }
  }

  lemma {:induction false} ApplyAllKeeps(r: Registry, ops: seq<Op>)
    requires Consistent(r) && PossibleAll(r, ops)
    ensures Consistent(ApplyAll(r, ops)) && r.log <= ApplyAll(r, ops).log && r.calls <= ApplyAll(r, ops).calls
    ensures r.unregistered <= ApplyAll(r, ops).unregistered
    decreases ops, 0
  {
    if ops != [] {
      ApplyKeeps(r, ops[0]);
      ApplyAllKeeps(Apply(r, ops[0]), ops[1..]);
    }
  }

  /** Main result: after any history the registry is consistent. */
  lemma EveryHistoryIsConsistent(ops: seq<Op>)
    requires PossibleAll(EMPTY, ops)
    ensures Consistent(ApplyAll(EMPTY, ops))
  {
    ApplyAllKeeps(EMPTY, ops);
  }

  // ----- removal -----

  /** Registration `id` is live, and its record is at `tag`. */
  predicate LiveAt(r: Registry, id: int, tag: nat) {
    0 <= id < |r.log| && id !in r.unregistered && r.log[id].addr == tag
  }

  /** A tag has an entry exactly while a registration is live there, and it is that registration's. */
  lemma PositionIff(r: Registry, tag: nat)
    requires Consistent(r)
    ensures var k := Position(r.entries, tag);
            && (k < |r.entries| <==> exists id :: LiveAt(r, id, tag))
            && forall id :: LiveAt(r, id, tag) ==> k < |r.entries| && r.entries[k] == r.log[id]
  {
    SurvivorsAre(r.log, Ids(r.unregistered));
    var k := Position(r.entries, tag);
    if k < |r.entries| {
      assert r.entries[k] in r.log && LiveAt(r, r.entries[k].id, tag);
    }
    forall id | LiveAt(r, id, tag)
      ensures k < |r.entries| && r.entries[k] == r.log[id]
    {
      assert r.log[id] in r.log && r.log[id] in r.entries;
      var j :| 0 <= j < |r.entries| && r.entries[j] == r.log[id];
      assert r.entries[k] in r.log && LiveAt(r, r.entries[k].id, tag);
    }
  }

  /** Removing a tag changes nothing if and only if no registration is live there, and otherwise removes
      that one; removing the tag again at once changes nothing. */
  lemma RemovalIff(r: Registry, tag: nat)
    requires Consistent(r)
    ensures Removed(r, tag) == r <==> !exists id :: LiveAt(r, id, tag)
    ensures forall id :: LiveAt(r, id, tag) ==> Removed(r, tag).unregistered == r.unregistered + [id]
    ensures Removed(Removed(r, tag), tag) == Removed(r, tag)
  {
    PositionIff(r, tag);
    var k, s := Position(r.entries, tag), Removed(r, tag);
    RemoveKeeps(r, tag);
    PositionIff(s, tag);
    if k < |r.entries| {
      var id := r.entries[k].id;
      assert |s.unregistered| == |r.unregistered| + 1 && s.unregistered[|r.unregistered|] == id;
      assert forall j :: LiveAt(s, j, tag) ==> LiveAt(r, j, tag);
    }
  }

  /** A tag that was removed before is harmless if and only if no later registration is live at the same
      address; if one is, it is unregistered in place of the one the tag was handed out for. */
  lemma StaleTagIff(r: Registry, id: nat)
    requires Consistent(r) && id in r.unregistered
    ensures id < |r.log|
    ensures var tag := r.log[id].addr;
            && (Removed(r, tag) == r <==> !exists j :: id < j && LiveAt(r, j, tag))
            && forall j :: id < j && LiveAt(r, j, tag) ==> Removed(r, tag).unregistered == r.unregistered + [j]
  {
    var tag := r.log[id].addr;
    RemovalIff(r, tag);
    assert forall j :: LiveAt(r, j, tag) ==> id < j;
  }

  /** A history in which that happens: the second registration gets the address of the first one's deleted
      record, and removing the first tag once more unregisters the second registration. */
  lemma StaleTagHitsAnother(tag: nat)
    ensures var ops := [Register(3, 1, 0, 0, Some(0), tag), Remove(tag), Register(4, 1, 0, 0, Some(1), tag)];
            var r := ApplyAll(EMPTY, ops);
            && PossibleAll(EMPTY, ops) && LiveAt(r, 1, tag) && r.live == {1}
            && Removed(r, tag).entries == [] && Removed(r, tag).unregistered == [0, 1] && Removed(r, tag).live == {}
  {
    var first, second := Register(3, 1, 0, 0, Some(0), tag), Register(4, 1, 0, 0, Some(1), tag);
    var r1 := Apply(EMPTY, first);
    var r2 := Apply(r1, Remove(tag));
    var r3 := Apply(r2, second);
    assert r1.entries == [NewEntry(EMPTY, first)] && Position(r1.entries, tag) == 0;
    assert r2.entries == [] && r2.unregistered == [0] && r2.live == {} && |r2.log| == 1;
    assert r3.entries == [NewEntry(r2, second)] && Position(r3.entries, tag) == 0;
    var ops := [first, Remove(tag), second];
    assert ops[1..] == [Remove(tag), second] && ops[1..][1..] == [second] && [second][1..] == [];
    assert ApplyAll(r2, [second]) == r3 && PossibleAll(r2, [second]);
    assert ApplyAll(r1, ops[1..]) == r3 && PossibleAll(r1, ops[1..]);
  }

  /** Registering and removing the tag handed out leaves the registry as it was, but for the books. */
  lemma RegisterThenRemove(r: Registry, op: Op)
    requires Consistent(r) && op.Register? && op.watcher.Some? && Possible(r, op)
    ensures var s := Apply(Apply(r, op), Remove(op.addr));
            s == r.(log := s.log, unregistered := r.unregistered + [|r.log|]) && s.log == r.log + [NewEntry(r, op)]
  {
    var s := Registered(r, op);
    assert Apply(r, op) == s;
    forall j | 0 <= j < |r.entries|
      ensures s.entries[j].addr != op.addr
    {
      assert r.entries[j] in r.entries;
    }
    assert s.entries[|r.entries|] == NewEntry(r, op);
    assert Position(s.entries, op.addr) == |r.entries|;
    WithoutLast(r.entries, NewEntry(r, op));
    assert Apply(s, Remove(op.addr)) == Removed(s, op.addr);
  }

  // ----- dispatch -----

  /** The first matching entry is the earliest live registration that matches. */
  lemma FirstIsEarliest(r: Registry, fd: int, read: bool, k: nat)
    requires Consistent(r) && k == FirstMatch(r.entries, fd, read) < |r.entries|
    ensures var id := r.entries[k].id;
            && id < |r.log| && id !in r.unregistered && r.log[id] == r.entries[k]
            && forall i :: 0 <= i < id && Matches(r.log[i], fd, read) ==> i in r.unregistered
  {
    SurvivorsAre(r.log, Ids(r.unregistered));
    var e := r.entries[k];
    assert e in r.log && r.log[e.id] == e;
    forall i | 0 <= i < e.id && Matches(r.log[i], fd, read)
      ensures i in r.unregistered
    {
      forall j | 0 <= j < |r.entries|
        ensures r.entries[j] != r.log[i]
      {
        assert k <= j ==> e.id <= r.entries[j].id;
      }
      assert r.log[i] !in r.entries;
    }
  }

  lemma NoneMatches(r: Registry, fd: int, read: bool)
    requires Consistent(r) && FirstMatch(r.entries, fd, read) == |r.entries|
    ensures !exists e :: e in r.log && e.id !in r.unregistered && Matches(e, fd, read)
  {
    SurvivorsAre(r.log, Ids(r.unregistered));
    assert forall e :: e in r.entries ==> !Matches(e, fd, read);
  }

  /** A dispatch runs a callback exactly when some live registration is for that descriptor and direction,
      and then that of the earliest such registration, with its data and the descriptor. */
  lemma DispatchPicksEarliest(r: Registry, fd: int, read: bool, reaction: seq<Op>)
    requires Consistent(r)
    ensures var s := Apply(r, Dispatch(fd, read, reaction));
            if exists id :: IsFor(r, id, fd, read) then
              exists id ::
                && IsFor(r, id, fd, read) && (forall i :: IsFor(r, i, fd, read) ==> id <= i)
                && s == ApplyAll(r.(calls := r.calls + [Call(r.log[id].fnc, r.log[id].fncData, fd)]), reaction)
            else s == r
  {
    var k := FirstMatch(r.entries, fd, read);
    if k < |r.entries| {
      FirstIsEarliest(r, fd, read, k);
      assert IsFor(r, r.entries[k].id, fd, read);
    } else {
      NoneMatches(r, fd, read);
      assert forall id :: IsFor(r, id, fd, read) ==> r.log[id] in r.log && Matches(r.log[id], fd, read);
    }
  }

  /** Registration `id` is live, for this descriptor, and for reading if its direction is not zero. */
  predicate IsFor(r: Registry, id: int, fd: int, read: bool) {
    0 <= id < |r.log| && id !in r.unregistered && r.log[id].fd == fd && (read <==> r.log[id].dir != 0)
  }

  /** A registration that `call` belongs to: its function, its data, its descriptor. */
  predicate BelongsTo(call: Call, e: Entry) {
    call.fnc == e.fnc && call.fncData == e.fncData && call.fd == e.fd
  }

  ghost predicate CallsBelong(r: Registry) {
    forall call :: call in r.calls ==> exists e :: e in r.log && BelongsTo(call, e)
  }

  lemma {:induction false} ApplyCallsBelong(r: Registry, op: Op)
    requires Consistent(r) && Possible(r, op) && CallsBelong(r)
    ensures CallsBelong(Apply(r, op))
    decreases op, 1
  {
    match op {
      case Register(_, _, _, _, _, _) =>
        assert r.log <= Registered(r, op).log;
        assert forall e :: e in r.log ==> e in Registered(r, op).log;
      case Remove(tag) =>
      case Dispatch(fd, read, reaction) =>
        var k := FirstMatch(r.entries, fd, read);
        if k < |r.entries| {
          FirstIsEarliest(r, fd, read, k);
          var e := r.entries[k];
          assert e in r.log && BelongsTo(Call(e.fnc, e.fncData, fd), e);
          ApplyAllCallsBelong(Called(r, e, fd), reaction);
        }
    }
  }

  lemma {:induction false} ApplyAllCallsBelong(r: Registry, ops: seq<Op>)
    requires Consistent(r) && PossibleAll(r, ops) && CallsBelong(r)
    ensures CallsBelong(ApplyAll(r, ops))
    decreases ops, 0
  {
    if ops != [] {
      ApplyCallsBelong(r, ops[0]);
      ApplyKeeps(r, ops[0]);
      ApplyAllCallsBelong(Apply(r, ops[0]), ops[1..]);
    }
  }

  /** After any history every callback that ran was that of a registration, with its own data and for
      activity on its own descriptor. */
  lemma EveryCallBelongs(ops: seq<Op>)
    requires PossibleAll(EMPTY, ops)
    ensures CallsBelong(ApplyAll(EMPTY, ops))
  {
    ApplyAllCallsBelong(EMPTY, ops);
  }

  /** A new registration is served: if nothing registered before matches, activity on its descriptor in
      its direction runs its function with its data, and activity in the other direction runs nothing. */
  lemma RegisterThenDispatch(r: Registry, op: Op, read: bool)
    requires op.Register? && op.watcher.Some?
    requires FirstMatch(r.entries, op.fd, read) == |r.entries|
    ensures Apply(Apply(r, op), Dispatch(op.fd, read, [])).calls
         == if (op.dir != 0) == read then r.calls + [Call(op.fnc, op.fncData, op.fd)] else r.calls
  {
    var s := Registered(r, op);
    assert Apply(r, op) == s;
    var k := FirstMatch(s.entries, op.fd, read);
    forall j | 0 <= j < |r.entries|
      ensures !Matches(s.entries[j], op.fd, read)
    {
      assert s.entries[j] == r.entries[j];
    }
    assert s.entries[|r.entries|] == NewEntry(r, op);
    if k < |s.entries| {
      assert k == |r.entries|;
      assert ApplyAll(Called(s, s.entries[k], op.fd), []) == Called(s, s.entries[k], op.fd);
    }
  }

  // ----- the registry on the heap -----

  /** A record; `addr` is its address, which deleted records' successors may get again. */
  class OneFD {
    ghost const id: nat
    const addr: nat
    const fd: int
    const dir: int
    const fnc: nat
    const fncData: nat
    const externalTag: nat

    constructor (ghost id: nat, addr: nat, fd: int, dir: int, fnc: nat, fncData: nat, externalTag: nat)
      ensures AsEntry() == Entry(id, addr, fd, dir, fnc, fncData, externalTag)
    {
      this.id, this.addr, this.fd, this.dir := id, addr, fd, dir;
      this.fnc, this.fncData, this.externalTag := fnc, fncData, externalTag;
    }

    ghost function AsEntry(): Entry {
      Entry(id, addr, fd, dir, fnc, fncData, externalTag)
    }
  }

  ghost function Entries(callbacks: seq<OneFD>): (r: seq<Entry>)
    ensures |r| == |callbacks|
    ensures forall i :: 0 <= i < |r| ==> r[i] == callbacks[i].AsEntry()
  {
    seq(|callbacks|, i requires 0 <= i < |callbacks| => callbacks[i].AsEntry())
  }

  lemma EntriesSnoc(callbacks: seq<OneFD>, o: OneFD)
    ensures Entries(callbacks + [o]) == Entries(callbacks) + [o.AsEntry()]
  {
  }

  lemma EntriesWithout(callbacks: seq<OneFD>, k: nat)
    requires k < |callbacks|
    ensures Entries(callbacks[..k] + callbacks[k + 1..]) == Without(Entries(callbacks), k)
  {
  }

  class EventLoopInteractor {
    var mCallbacks: seq<OneFD>
    /** The watchers of the event loop behind registerWatcher and unregisterWatcher. */
    var watchers: set<nat>
    ghost var log: seq<Entry>
    ghost var unregistered: seq<nat>
    ghost var calls: seq<Call>

    ghost function View(): Registry
      reads this
    {
      Registry(Entries(mCallbacks), log, unregistered, watchers, calls)
    }

    ghost predicate Valid()
      reads this
    {
      Consistent(View())
    }

    constructor ()
      ensures Valid() && View() == EMPTY
    {
      mCallbacks, watchers, log, unregistered, calls := [], {}, [], [], [];
      new;
      EveryHistoryIsConsistent([]);
    }

    /** Pushes the record. */
    method Push(o: OneFD)
      modifies this`mCallbacks
      ensures Entries(mCallbacks) == old(Entries(mCallbacks)) + [o.AsEntry()]
    {
      EntriesSnoc(mCallbacks, o);
      mCallbacks := mCallbacks + [o];
    }

    /** registerIOCb. */
    method RegisterIOCb(fd: int, dir: int, fnc: nat, fncData: nat, watcher: Option<nat>, addr: nat)
      returns (err: Error, tag: Option<nat>)
      requires Valid() && Possible(View(), Register(fd, dir, fnc, fncData, watcher, addr))
      modifies this
      ensures Valid() && View() == Registered(old(View()), Register(fd, dir, fnc, fncData, watcher, addr))
      ensures if watcher.Some? then err == NoError && tag == Some(addr) else err == General && tag == None
    {
      ghost var before, op := View(), Register(fd, dir, fnc, fncData, watcher, addr);
      RegisterKeeps(before, op);
      if watcher.None? {
        return General, None;
      }
      watchers := watchers + {watcher.value};
      var o := new OneFD(|log|, addr, fd, dir, fnc, fncData, watcher.value);
      Push(o);
      log := log + [o.AsEntry()];
      assert o.AsEntry() == NewEntry(before, op);
      return NoError, Some(o.addr);
    }

    /** Unregisters and erases the record at `it`. */
    method Erase(it: nat)
      requires it < |mCallbacks|
      modifies this
      ensures View() == var r := old(View());
                        r.(entries := Without(r.entries, it), unregistered := r.unregistered + [r.entries[it].id],
                           live := r.live - {r.entries[it].externalTag})
    {
      EntriesWithout(mCallbacks, it);
      watchers := watchers - {mCallbacks[it].externalTag};
      unregistered := unregistered + [mCallbacks[it].id];
      mCallbacks := mCallbacks[..it] + mCallbacks[it + 1..];
    }

    /** removeIOCb: searched by address, unregistered and erased at the first match. */
    method RemoveIOCb(tag: nat)
      requires Valid()
      modifies this
      ensures Valid() && View() == Removed(old(View()), tag)
    {
      RemoveKeeps(View(), tag);
      var it := 0;
      while it < |mCallbacks|
        invariant it <= |mCallbacks|
        invariant forall j :: 0 <= j < it ==> View().entries[j].addr != tag
      {
        assert View().entries[it] == mCallbacks[it].AsEntry();
        if mCallbacks[it].addr == tag {
          assert Position(View().entries, tag) == it;
          Erase(it);
          return;
        }
        it := it + 1;
      }
      assert Position(View().entries, tag) == |View().entries|;
    }

    /** actOn. `reaction` is what the callback does if one is run; it may register, remove (itself
        included) and dispatch again. The loop is left without touching the iterator again. */
    method ActOn(fd: int, read: bool, reaction: seq<Op>)
      requires Valid() && Possible(View(), Dispatch(fd, read, reaction))
      modifies this
      ensures Valid() && View() == Apply(old(View()), Dispatch(fd, read, reaction))
      decreases reaction, 2
    {
      var it := 0;
      while it < |mCallbacks|
        invariant it <= |mCallbacks|
        invariant forall j :: 0 <= j < it ==> !Matches(mCallbacks[j].AsEntry(), fd, read)
      {
        if mCallbacks[it].fd == fd && (mCallbacks[it].dir != 0) == read {
          assert View().entries[it] == mCallbacks[it].AsEntry();
          assert FirstMatch(View().entries, fd, read) == it;
          RunCallback(mCallbacks[it], fd, reaction);
          return;
        }
        it := it + 1;
      }
      assert FirstMatch(View().entries, fd, read) == |View().entries|;
    }

    method RunCallback(o: OneFD, fd: int, reaction: seq<Op>)
      requires Valid() && PossibleAll(Called(View(), o.AsEntry(), fd), reaction)
      modifies this
      ensures Valid() && View() == ApplyAll(Called(old(View()), o.AsEntry(), fd), reaction)
      decreases reaction, 1
    {
      calls := calls + [Call(o.fnc, o.fncData, fd)];
      PerformAll(reaction);
    }

    method PerformAll(ops: seq<Op>)
      requires Valid() && PossibleAll(View(), ops)
      modifies this
      ensures Valid() && View() == ApplyAll(old(View()), ops)
      decreases ops, 0
    {
      if ops != [] {
        Perform(ops[0]);
        PerformAll(ops[1..]);
      }
    }

    method Perform(op: Op)
      requires Valid() && Possible(View(), op)
      modifies this
      ensures Valid() && View() == Apply(old(View()), op)
      decreases op, 3
    {
      match op {
        case Register(fd, dir, fnc, fncData, watcher, addr) =>
          var _, _ := RegisterIOCb(fd, dir, fnc, fncData, watcher, addr);
        case Remove(tag) => RemoveIOCb(tag);
        case Dispatch(fd, read, reaction) => ActOn(fd, read, reaction);
      }
    }
  }
}
