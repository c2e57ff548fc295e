/** Configuration options: the default, active and new argument lists and their editing. */
module Options {
  import opened Errors
  import opened Chains
  import opened Configuration

  // ----- the change machine on values -----

  /** The three lists of an option (empty for a null pointer) and its change_value flag. */
  datatype View = View(byDefault: seq<Payload>, active: seq<Payload>, new': seq<Payload>, change: bool)

  function Current(v: View): seq<Payload> {
    if v.change then if v.new' != [] then v.new' else v.byDefault
    else if v.active != [] then v.active
    else v.byDefault
  }

  predicate IsSet(v: View) {
    if v.change then v.new' != [] else v.active != []
  }

  datatype Edit =
    | SetNewValue(value: seq<Payload>)
    | ResetToActiveValue
    | ResetToDefaultValue

  /** An edit and its fate: whether copying the argument and gpgme_conf_opt_change succeed. */
  datatype Attempt = Attempt(edit: Edit, copied: bool, accepted: bool)

  /** A null argument is not copied, so only the change itself can fail for it. */
  predicate Accepted(a: Attempt) {
    a.accepted && (a.edit.SetNewValue? && a.edit.value != [] ==> a.copied)
  }

  function After(v: View, a: Attempt): View {
    if !Accepted(a) then v
    else
      match a.edit
      case SetNewValue(value) => v.(new' := value, change := true)
      case ResetToActiveValue => v.(new' := [], change := false)
      case ResetToDefaultValue => v.(new' := [], change := true)
  }

  function AfterAll(v: View, history: seq<Attempt>): View {
    if history == [] then v
    else After(AfterAll(v, history[..|history| - 1]), history[|history| - 1])
  }

  /** The edit that was accepted last, if any. */
  function LastAccepted(history: seq<Attempt>): Option<Edit> {
    if history == [] then None
    else
      var last := history[|history| - 1];
      if Accepted(last) then Some(last.edit) else LastAccepted(history[..|history| - 1])
  }

  /** What an edit is meant to make current. */
  function Intended(v: View, e: Edit): seq<Payload> {
    match e
    case SetNewValue(value) => if value == [] then v.byDefault else value
    case ResetToActiveValue => if v.active == [] then v.byDefault else v.active
    case ResetToDefaultValue => v.byDefault
  }

  /** Over any history of edits, failed ones included, the current value is the one the last accepted
      edit intends, or the original one; the default and active lists never change; and the option is
      dirty exactly when the last accepted edit was not a reset to the active value. */
  lemma {:induction false} LastAcceptedEditWins(v: View, history: seq<Attempt>)
    ensures var r := AfterAll(v, history);
            && r.byDefault == v.byDefault && r.active == v.active
            && (match LastAccepted(history)
                case None => r == v
                case Some(e) => Current(r) == Intended(v, e) && (r.change <==> !e.ResetToActiveValue?)
                                && (IsSet(r) <==> match e
                                                  case SetNewValue(value) => value != []
                                                  case ResetToActiveValue => v.active != []
                                                  case ResetToDefaultValue => false))
  {
    if history != [] {
      LastAcceptedEditWins(v, history[..|history| - 1]);
    }
  }

  /** Whenever an option is not set its current value is the default, and otherwise it is the new or
      active list. */
  lemma UnsetMeansDefault(v: View)
    ensures !IsSet(v) ==> Current(v) == v.byDefault
    ensures IsSet(v) ==> Current(v) == (if v.change then v.new' else v.active) && Current(v) != []
  {
  }

  /** Resetting to the active value after any edits restores the option exactly when it carried no
      pending change to begin with; what is current and whether it is set are then the same again. */
  lemma ResetRestoresIff(v: View, history: seq<Attempt>, reset: Attempt)
    requires reset.edit.ResetToActiveValue? && Accepted(reset)
    ensures AfterAll(v, history + [reset]) == v <==> !v.change && v.new' == []
  {
    LastAcceptedEditWins(v, history);
    assert (history + [reset])[..|history|] == history;
  }

  // ----- histories over an allocator -----

  /** A request as a caller makes it, and whether gpgme_conf_opt_change accepts the change. */
  datatype Request = Request(edit: Edit, accepted: bool)

  /** Copying the argument succeeds if its allocations do; resets allocate nothing. */
  function AttemptOf(q: Request, plan: seq<bool>): Attempt {
    Attempt(q.edit, q.edit.SetNewValue? ==> AllGranted(plan, |q.edit.value|), q.accepted)
  }

  function PlanAfter(q: Request, plan: seq<bool>): seq<bool> {
    if q.edit.SetNewValue? then AfterCopy(plan, |q.edit.value|) else plan
  }

  function PlanAfterAll(history: seq<Request>, plan: seq<bool>): seq<bool> {
    if history == [] then plan
    else PlanAfter(history[|history| - 1], PlanAfterAll(history[..|history| - 1], plan))
  }

  /** The attempts that a history of requests amounts to. */
  function Attempts(history: seq<Request>, plan: seq<bool>): (attempts: seq<Attempt>)
    ensures |attempts| == |history|
  {
    if history == [] then []
    else
      var front := history[..|history| - 1];
      Attempts(front, plan) + [AttemptOf(history[|history| - 1], PlanAfterAll(front, plan))]
  }

  /** What an attempt allocates and leaves without an owner: a copy that is refused. */
  function Orphans(a: Attempt): seq<Payload> {
    if a.edit.SetNewValue? && a.copied && !a.accepted then a.edit.value else []
  }

  function AllOrphans(attempts: seq<Attempt>): seq<Payload> {
    if attempts == [] then []
    else AllOrphans(attempts[..|attempts| - 1]) + Orphans(attempts[|attempts| - 1])
  }

  lemma OrphansIff(a: Attempt)
    ensures Orphans(a) == [] <==>
              (a.edit.SetNewValue? ==> a.accepted || !a.copied || a.edit.value == [])
  {
  }

  /** A history leaks nothing if and only if every change to a new value was accepted, could not be copied,
      or had nothing to copy. */
  lemma {:induction false} NothingLeaksIff(attempts: seq<Attempt>)
    ensures AllOrphans(attempts) == [] <==>
              forall i :: 0 <= i < |attempts| && attempts[i].edit.SetNewValue? ==>
                attempts[i].accepted || !attempts[i].copied || attempts[i].edit.value == []
  {
    if attempts != [] {
      var front, last := attempts[..|attempts| - 1], attempts[|attempts| - 1];
      NothingLeaksIff(front);
      OrphansIff(last);
      assert forall i :: 0 <= i < |front| ==> front[i] == attempts[i];
    }
  }

  lemma HistoryStep(v: View, history: seq<Request>, i: nat, plan: seq<bool>)
    requires i < |history|
    ensures var before, q := PlanAfterAll(history[..i], plan), history[i];
            && PlanAfterAll(history[..i + 1], plan) == PlanAfter(q, before)
            && AfterAll(v, Attempts(history[..i + 1], plan))
               == After(AfterAll(v, Attempts(history[..i], plan)), AttemptOf(q, before))
            && AllOrphans(Attempts(history[..i + 1], plan))
               == AllOrphans(Attempts(history[..i], plan)) + Orphans(AttemptOf(q, before))
  {
    var front, upto := history[..i], history[..i + 1];
    assert upto[..i] == front;
    var attempts := Attempts(upto, plan);
    assert attempts[..i] == Attempts(front, plan);
  }

  // ----- the option on the heap -----

  lemma NotAmong(copy: seq<Arg>, own: seq<Arg>)
    requires copy != [] && Elements(copy) !! Elements(own)
    ensures !(Elements(copy) <= Elements(own))
  {
    assert copy[0] in Elements(copy);
  }

  class ConfOption {
    const altType: ConfType
    var defaultValue: MaybeArg
    var value: MaybeArg
    var newValue: MaybeArg
    var changeValue: bool
    ghost var defaultNodes: seq<Arg>
    ghost var activeNodes: seq<Arg>
    ghost var newNodes: seq<Arg>

    ghost predicate Valid()
      reads this, defaultNodes, activeNodes, newNodes
    {
      && IsChain(defaultValue, defaultNodes) && AllHaveType(Values(defaultNodes), altType)
      && IsChain(value, activeNodes) && AllHaveType(Values(activeNodes), altType)
      && IsChain(newValue, newNodes) && AllHaveType(Values(newNodes), altType)
    }

    ghost function Content(): View
      reads this, defaultNodes, activeNodes, newNodes
    {
      View(Values(defaultNodes), Values(activeNodes), Values(newNodes), changeValue)
    }

    /** An option as gpgme loads it. */
    constructor (t: ConfType, byDefault: MaybeArg, ghost ds: seq<Arg>, active: MaybeArg, ghost xs: seq<Arg>)
      requires IsChain(byDefault, ds) && AllHaveType(Values(ds), t)
      requires IsChain(active, xs) && AllHaveType(Values(xs), t)
      ensures Valid() && altType == t && Content() == View(Values(ds), Values(xs), [], false)
    {
      altType := t;
      defaultValue, defaultNodes, value, activeNodes := byDefault, ds, active, xs;
      newValue, newNodes, changeValue := null, [], false;
    }

    /** set. */
    method IsSetNow() returns (r: bool)
      requires Valid()
      ensures r == IsSet(Content())
    {
      r := if changeValue then newValue != null else value != null;
    }

    /** currentValue: a copy that shares no node with the option. */
    method CurrentValue(g: Gpgconf) returns (a: Argument)
      requires Valid()
      modifies g
      ensures fresh(a) && a.Valid() && a.t == altType
      ensures Valid() && Content() == old(Content())
      ensures fresh(Elements(a.nodes))
      ensures Values(a.nodes) == if AllGranted(old(g.plan), |Current(Content())|) then Current(Content()) else []
      ensures g.live == old(g.live) + Elements(a.nodes)
    {
      if changeValue && newValue != null {
        a := new Argument.Copying(altType, newValue, newNodes, g);
      } else if !changeValue && value != null {
        a := new Argument.Copying(altType, value, activeNodes, g);
      } else {
        a := new Argument.Copying(altType, defaultValue, defaultNodes, g);
      }
    }

    /** gpgme_conf_opt_change: refuses and does nothing, or drops or installs the new list. */
    method OptChange(reset: bool, arg: MaybeArg, ghost nodes: seq<Arg>, accepted: bool) returns (err: Error)
      requires Valid() && IsChain(arg, nodes) && AllHaveType(Values(nodes), altType)
      modifies this`newValue, this`newNodes, this`changeValue
      ensures Valid()
      ensures if !accepted then err == General && Content() == old(Content()) && newNodes == old(newNodes)
              else if reset then err == NoError && Content() == old(Content()).(new' := [], change := false)
              else err == NoError && newNodes == nodes
                   && Content() == old(Content()).(new' := Values(nodes), change := true)
    {
      if !accepted {
        return General;
      }
      err := NoError;
      if reset {
        newValue, newNodes, changeValue := null, [], false;
      } else {
        newValue, newNodes, changeValue := arg, nodes, true;
      }
    }

    /** Looking at the current value and dropping it again leaves no node behind. */
    method InspectCurrentValue(g: Gpgconf) returns (n: nat)
      requires Valid()
      modifies g
      ensures Valid() && Content() == old(Content())
      ensures n == if AllGranted(old(g.plan), |Current(Content())|) then |Current(Content())| else 0
      ensures g.live == old(g.live)
    {
      var a := CurrentValue(g);
      n := a.NumElements();
      a.Destroy(g);
    }

    /** The copy of a non-empty argument that setNewValue makes; null if an allocation failed. */
    method CopyOf(argument: Argument, g: Gpgconf) returns (arg: MaybeArg, ghost copy: seq<Arg>)
      requires Valid() && argument.Valid() && AllHaveType(Values(argument.nodes), altType) && argument.arg != null
      modifies g
      ensures Valid() && argument.Valid() && Content() == old(Content())
      ensures Values(argument.nodes) == old(Values(argument.nodes))
      ensures IsChain(arg, copy) && AllHaveType(Values(copy), altType)
      ensures arg == null <==> !AllGranted(old(g.plan), |argument.nodes|)
      ensures Values(copy) == if arg == null then [] else Values(argument.nodes)
      ensures fresh(Elements(copy)) && g.live == old(g.live) + Elements(copy)
      ensures g.plan == AfterCopy(old(g.plan), |argument.nodes|)
      ensures Elements(copy) <= Elements(newNodes) <==> arg == null
    {
      ReadAsExactIff(Values(argument.nodes), altType);
      arg, copy := CopyArgs(argument.arg, argument.nodes, altType, g);
      if arg != null {
        NotAmong(copy, newNodes);
      }
    }

    /** setNewValue. The option takes a copy, so it shares no node with the argument. `copy` is what the
        call allocated and did not release; the option owns it if and only if the change was accepted,
        the copy failed, or there was nothing to copy. A copy that gpgme refuses has no owner. */
    method SetValue(argument: Argument, accepted: bool, g: Gpgconf) returns (err: Error, ghost copy: seq<Arg>)
      requires Valid() && argument.Valid() && AllHaveType(Values(argument.nodes), altType)
      modifies g, this`newValue, this`newNodes, this`changeValue
      ensures Valid() && argument.Valid()
      ensures Values(argument.nodes) == old(Values(argument.nodes))
      ensures var copied := AllGranted(old(g.plan), |argument.nodes|);
              var attempt := Attempt(SetNewValue(Values(argument.nodes)), copied, accepted);
              && Content() == After(old(Content()), attempt)
              && err == (if Accepted(attempt) then NoError
                         else if !copied && argument.nodes != [] then OutOfMemory else General)
              && Values(copy) == (if copied then Values(argument.nodes) else [])
              && newNodes == (if Accepted(attempt) then copy else old(newNodes))
              && (Elements(copy) <= Elements(newNodes) <==> accepted || !copied || argument.nodes == [])
      ensures fresh(Elements(copy)) && Distinct(copy) && g.live == old(g.live) + Elements(copy)
      ensures g.plan == AfterCopy(old(g.plan), |argument.nodes|)
    {
      copy := [];
      if argument.arg == null {
        err := OptChange(false, null, [], accepted);
        return;
      }
      var arg;
      arg, copy := CopyOf(argument, g);
      if arg == null {
        return OutOfMemory, copy;
      }
      err := OptChange(false, arg, copy, accepted);
    }

    method ResetToActive(accepted: bool) returns (err: Error)
      requires Valid()
      modifies this`newValue, this`newNodes, this`changeValue
      ensures Valid()
      ensures Content() == After(old(Content()), Attempt(ResetToActiveValue, true, accepted))
      ensures newNodes == if accepted then [] else old(newNodes)
      ensures err == if accepted then NoError else General
    {
      err := OptChange(true, null, [], accepted);
    }

    method ResetToDefault(accepted: bool) returns (err: Error)
      requires Valid()
      modifies this`newValue, this`newNodes, this`changeValue
      ensures Valid()
      ensures Content() == After(old(Content()), Attempt(ResetToDefaultValue, true, accepted))
      ensures newNodes == if accepted then [] else old(newNodes)
      ensures err == if accepted then NoError else General
    {
      err := OptChange(false, null, [], accepted);
    }
  }

  /** An argument holding these values, made with memory to spare. */
  method ArgumentOf(t: ConfType, values: seq<Payload>) returns (a: Argument)
    requires AllHaveType(values, t)
    ensures fresh(a) && a.Valid() && a.t == t && Values(a.nodes) == values
  {
    KeptAll(values, []);
    var elsewhere := new Gpgconf([]);
    var list, nodes := MakeList(values, elsewhere);
    a := new Argument.Owning(t, list, nodes);
  }

  /** A refused change to the list [1]: the copied node stays allocated, and neither the option nor the
      argument owns it. */
  method RefusedChangeLeaks() returns (o: ConfOption, a: Argument, g: Gpgconf, err: Error)
    ensures o.Valid() && a.Valid() && err == General
    ensures o.Content() == View([], [], [], false) && Values(a.nodes) == [Word(1)]
    ensures exists n :: n in g.live && n !in Elements(o.newNodes) && n !in Elements(a.nodes)
  {
    g := new Gpgconf([]);
    a := ArgumentOf(Int32Type, [Word(1)]);
    o := new ConfOption(Int32Type, null, [], null, []);
    ghost var copy;
    err, copy := o.SetValue(a, false, g);
    assert copy[0] in Elements(copy);
  }

  /** Every value a request wants to set fits the option's type. */
  predicate AllFit(history: seq<Request>, t: ConfType) {
    forall i :: 0 <= i < |history| && history[i].edit.SetNewValue? ==> AllHaveType(history[i].edit.value, t)
  }

  lemma ElementsJoin(a: seq<Arg>, b: seq<Arg>)
    ensures Elements(a + b) == Elements(a) + Elements(b)
  {
  }

  /** What the refused copies left behind: allocated nodes that the option does not own. */
  ghost predicate Orphaned(orphans: seq<Arg>, leaked: seq<Payload>, o: ConfOption, g: Gpgconf)
    reads orphans, o, g
  {
    && Values(orphans) == leaked && Distinct(orphans)
    && Elements(orphans) <= g.live && Elements(orphans) !! Elements(o.newNodes)
  }

  lemma OrphansJoin(before: seq<Arg>, leaked: seq<Payload>, copy: seq<Arg>, o: ConfOption, g: Gpgconf)
    requires Orphaned(before, leaked, o, g) && Distinct(copy)
    requires Elements(copy) <= g.live && Elements(copy) !! Elements(o.newNodes) && Elements(copy) !! Elements(before)
    ensures Orphaned(before + copy, leaked + Values(copy), o, g)
  {
    var all := before + copy;
    assert forall i :: 0 <= i < |before| ==> all[i] in Elements(before);
    assert forall i :: |before| <= i < |all| ==> all[i] in Elements(copy);
  }

  /** setNewValue with an argument made for the occasion; `refused` is a copy that nobody owns. */
  method SetFresh(o: ConfOption, value: seq<Payload>, accepted: bool, g: Gpgconf) returns (ghost refused: seq<Arg>)
    requires o.Valid() && AllHaveType(value, o.altType)
    modifies g, o`newValue, o`newNodes, o`changeValue
    ensures var attempt := Attempt(SetNewValue(value), AllGranted(old(g.plan), |value|), accepted);
            && o.Valid() && o.Content() == After(old(o.Content()), attempt)
            && Values(refused) == Orphans(attempt)
    ensures g.plan == AfterCopy(old(g.plan), |value|) && old(g.live) + Elements(refused) <= g.live
    ensures Distinct(refused) && fresh(Elements(refused)) && Elements(refused) !! Elements(o.newNodes)
    ensures o.newNodes == old(o.newNodes) || fresh(Elements(o.newNodes))
  {
    ghost var own := Elements(o.newNodes);
    var a := ArgumentOf(o.altType, value);
    assert |a.nodes| == |value|;
    var _, copy := o.SetValue(a, accepted, g);
    assert Elements(copy) !! own;
    if accepted {
      refused := [];
      assert Elements(refused) == {};
    } else {
      refused := copy;
      assert o.newNodes == old(o.newNodes);
    }
  }

  method PerformOne(o: ConfOption, q: Request, g: Gpgconf, ghost before: seq<Arg>, ghost leaked: seq<Payload>)
    returns (ghost refused: seq<Arg>)
    requires o.Valid() && (q.edit.SetNewValue? ==> AllHaveType(q.edit.value, o.altType))
    requires Orphaned(before, leaked, o, g)
    modifies g, o`newValue, o`newNodes, o`changeValue
    ensures o.Valid() && o.Content() == After(old(o.Content()), AttemptOf(q, old(g.plan)))
    ensures g.plan == PlanAfter(q, old(g.plan)) && old(g.live) <= g.live
    ensures Orphaned(before + refused, leaked + Orphans(AttemptOf(q, old(g.plan))), o, g)
    ensures fresh(Elements(refused))
  {
    refused := [];
    ghost var known := Elements(before);
    match q.edit {
      case SetNewValue(value) =>
        refused := SetFresh(o, value, q.accepted, g);
        assert Elements(refused) !! known;
      case ResetToActiveValue => var _ := o.ResetToActive(q.accepted);
      case ResetToDefaultValue => var _ := o.ResetToDefault(q.accepted);
    }
    OrphansJoin(before, leaked, refused, o, g);
  }

  /** Over any history of requests, failed copies and refusals included, the option ends up as the attempts
      say, and all copies that were refused stay allocated without being owned by it. */
  method Perform(o: ConfOption, history: seq<Request>, g: Gpgconf) returns (ghost orphans: seq<Arg>)
    requires o.Valid() && AllFit(history, o.altType)
    modifies g, o`newValue, o`newNodes, o`changeValue
    ensures o.Valid() && o.Content() == AfterAll(old(o.Content()), Attempts(history, old(g.plan)))
    ensures Orphaned(orphans, AllOrphans(Attempts(history, old(g.plan))), o, g) && fresh(Elements(orphans))
  {
    orphans := [];
    ghost var v, plan := o.Content(), g.plan;
    ghost var now, leaked := v, [];
    for i := 0 to |history|
      invariant o.Valid() && o.Content() == now
      invariant now == AfterAll(v, Attempts(history[..i], plan))
      invariant g.plan == PlanAfterAll(history[..i], plan)
      invariant Orphaned(orphans, leaked, o, g) && leaked == AllOrphans(Attempts(history[..i], plan))
      invariant fresh(Elements(orphans))
    {
      HistoryStep(v, history, i, plan);
      now := After(now, AttemptOf(history[i], g.plan));
      ghost var leaked' := leaked + Orphans(AttemptOf(history[i], g.plan));
      ghost var refused := PerformOne(o, history[i], g, orphans, leaked);
      ElementsJoin(orphans, refused);
      orphans, leaked := orphans + refused, leaked';
    }
    assert history[..|history|] == history;
  }
}
