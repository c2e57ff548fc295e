/** KeyListResult: implicitly shared results and their copy-on-write merge. */
module KeyListResult {
  import opened Errors

  // ----- merging, on values -----

  /** What can be observed of a result: its error, and the truncated flag if it holds data. */
  datatype View = View(error: Error, data: Option<bool>)

  predicate IsNull(v: View) {
    v.data.None? && !v.error.Holds()
  }

  predicate IsTruncated(v: View) {
    v.data.Some? && v.data.value
  }

  function Merge(a: View, b: View): View {
    if IsNull(b) then a
    else if IsNull(a) then b
    else
      View(if a.error.Holds() then a.error else b.error,
           if IsTruncated(b) then Some(true) else a.data)
  }

  /** Merging results into a first one, in order. */
  function MergeAll(first: View, others: seq<View>): View {
    if others == [] then first
    else Merge(MergeAll(first, others[..|others| - 1]), others[|others| - 1])
  }

  /** The first error of a sequence that tests true. */
  function FirstError(views: seq<View>): Option<Error> {
    if views == [] then None
    else if views[0].error.Holds() then Some(views[0].error)
    else FirstError(views[1..])
  }

  lemma {:induction false} FirstErrorSnoc(views: seq<View>, v: View)
    ensures FirstError(views + [v]) == match FirstError(views)
                                       case Some(e) => Some(e)
                                       case None => if v.error.Holds() then Some(v.error) else None
  {
    if views == [] {
      assert views + [v] == [v];
      assert [v][1..] == [];
    } else {
      FirstErrorSnoc(views[1..], v);
      assert (views + [v])[1..] == views[1..] + [v];
    }
  }

  /** The error of the last result that holds data, or else that of the first result. */
  function LastWithData(first: View, others: seq<View>): Error {
    if others == [] then first.error
    else
      var last := others[|others| - 1];
      if last.data.Some? then last.error else LastWithData(first, others[..|others| - 1])
  }

  /** However many results are merged, the outcome is truncated exactly when one of them was, and its
      error is the first that tests true. If none does, it is the error of the last result merged in that
      held data, and the outcome holds data exactly when one of them did. */
  lemma {:induction false} MergedFold(first: View, others: seq<View>)
    ensures var r, all := MergeAll(first, others), [first] + others;
            && (IsTruncated(r) <==> exists i :: 0 <= i < |all| && IsTruncated(all[i]))
            && (match FirstError(all)
                case Some(e) => r.error == e && e.Holds()
                case None => r.error == LastWithData(first, others) && !r.error.Holds()
                             && (r.data.Some? <==> exists i :: 0 <= i < |all| && all[i].data.Some?))
  {
    if others == [] {
      assert [first] + others == [first] && [first][0] == first;
      assert [first][1..] == [];
    } else {
      var front, last := others[..|others| - 1], others[|others| - 1];
      MergedFold(first, front);
      FirstErrorSnoc([first] + front, last);
      var all, before := [first] + others, [first] + front;
      assert all == before + [last];
      assert forall i :: 0 <= i < |before| ==> all[i] == before[i];
      assert all[|before|] == last;
      if MergeAll(first, front).data.None? {
        assert FirstError(before).None? ==> !before[0].data.Some?;
      }
    }
  }

  /** Result i brings data into the merge: it is truncated, or no error came before it. */
  predicate BringsData(all: seq<View>, i: nat)
    requires i < |all|
  {
    all[i].data.Some? && (IsTruncated(all[i]) || forall j :: 0 <= j < i ==> !all[j].error.Holds())
  }

  lemma BringsSame(before: seq<View>, last: View, i: nat)
    requires i < |before|
    ensures BringsData(before, i) <==> BringsData(before + [last], i)
  {
    assert forall j :: 0 <= j <= i ==> (before + [last])[j] == before[j];
  }

  /** Data that comes after an error is dropped, unless it is truncated. */
  lemma {:induction false} DataSurvivesIff(first: View, others: seq<View>)
    ensures MergeAll(first, others).data.Some?
       <==> exists i :: 0 <= i <= |others| && BringsData([first] + others, i)
  {
    var all := [first] + others;
    if others == [] {
      assert all[0] == first;
      assert first.data.Some? <==> BringsData(all, 0);
    } else {
      var front, last := others[..|others| - 1], others[|others| - 1];
      var before := [first] + front;
      DataSurvivesIff(first, front);
      MergedFold(first, front);
      FirstErrorNone(before);
      assert all == before + [last];
      forall i: nat | i < |before|
        ensures BringsData(before, i) <==> BringsData(all, i)
      {
        BringsSame(before, last, i);
      }
      assert forall j :: 0 <= j < |before| ==> all[j] == before[j];
      assert BringsData(all, |others|) <==>
               last.data.Some? && (IsTruncated(last) || !MergeAll(first, front).error.Holds());
    }
  }

  /** No error tests true, result i is cancelled, and none merged in after it holds data; it holds data
      itself unless it is the one the others are merged into. */
  predicate CancellationStands(all: seq<View>, i: nat)
    requires i < |all|
  {
    && all[i].error == Canceled
    && (i == 0 || all[i].data.Some?)
    && (forall j :: i < j < |all| ==> all[j].data.None?)
    && (forall k :: 0 <= k < |all| ==> !all[k].error.Holds())
  }

  /** A cancellation does not always survive merging: exactly one that no true error and no later
      data joins does. */
  lemma CancellationSurvivesIff(first: View, others: seq<View>)
    ensures MergeAll(first, others).error == Canceled
       <==> exists i :: 0 <= i <= |others| && CancellationStands([first] + others, i)
  {
    var all := [first] + others;
    MergedFold(first, others);
    FirstErrorNone(all);
    var i := LastWithDataAt(first, others);
    assert MergeAll(first, others).error == Canceled ==> CancellationStands(all, i);
  }

  lemma {:induction false} FirstErrorNone(views: seq<View>)
    ensures FirstError(views).None? <==> forall k :: 0 <= k < |views| ==> !views[k].error.Holds()
  {
    if views != [] {
      FirstErrorNone(views[1..]);
      assert forall k :: 0 < k < |views| ==> views[k] == views[1..][k - 1];
    }
  }

  lemma {:induction false} LastWithDataAt(first: View, others: seq<View>) returns (i: nat)
    ensures var all := [first] + others;
            && i < |all| && LastWithData(first, others) == all[i].error && (i == 0 || all[i].data.Some?)
            && forall j :: i < j < |all| ==> all[j].data.None?
  {
    i := 0;
    if others != [] {
      var front, last := others[..|others| - 1], others[|others| - 1];
      if last.data.Some? {
        i := |others|;
      } else {
        i := LastWithDataAt(first, front);
        var all := [first] + others;
        assert forall j :: 0 <= j <= |front| ==> all[j] == ([first] + front)[j];
        assert all[|others|] == last;
      }
    }
  }

  /** Cancelled results that lose their cancellation: one without data that is merged in, and one with
      data into which a later result is merged. */
  lemma CancellationLost()
    ensures Merge(View(NoError, None), View(Canceled, None)).error == NoError
    ensures Merge(View(Canceled, Some(false)), View(NoError, Some(false))).error == NoError
  {
  }

  // ----- shared data on the heap -----

  /** KeyListResult::Private behind its shared_ptr. */
  class Data {
    var truncated: bool
    var useCount: nat

    constructor (truncated: bool)
      ensures this.truncated == truncated && useCount == 1
    {
      this.truncated, useCount := truncated, 1;
    }

    /** The copy made for a new shared_ptr; its owner has yet to be counted. */
    constructor Copy(other: Data)
      ensures truncated == other.truncated && useCount == 0
    {
      truncated, useCount := other.truncated, 0;
    }
  }

  ghost function Just(p: Data?): set<Data> {
    if p == null then {} else {p}
  }

  /** Results sharing `p`. */
  ghost function Owners(world: set<Result>, p: Data): set<Result>
    reads world`d
  {
    set r | r in world && r.d == p
  }

  ghost function Shared(world: set<Result>): set<Data>
    reads world`d
  {
    set r | r in world && r.d != null :: r.d
  }

  /** The use counts count the results of `world`, which holds every result there is. */
  ghost predicate Counted(world: set<Result>)
    reads world`d, Shared(world)`useCount
  {
    forall r :: r in world && r.d != null ==> r.d.useCount == |Owners(world, r.d)|
  }

  class Result {
    var error: Error
    var d: Data?

    constructor (error: Error)
      ensures this.error == error && d == null
    {
      this.error, d := error, null;
    }

    constructor WithData(error: Error, truncated: bool)
      ensures this.error == error && d != null && fresh(d) && d.truncated == truncated && d.useCount == 1
    {
      this.error := error;
      d := new Data(truncated);
    }

    function Look(): View
      reads this, d
    {
      View(error, if d == null then None else Some(d.truncated))
    }

    /** Everyone but this result looks as before and shares what it shared before. */
    twostate predicate OthersUntouched(world: set<Result>)
      reads world, Shared(world)
    {
      forall r :: r in world && r != this ==> r.d == old(r.d) && r.Look() == old(r.Look())
    }

    /** The handle, holding nothing so far, becomes one more owner of `p`. */
    method Adopt(p: Data?, ghost world: set<Result>)
      requires this in world && Counted(world) && d == null
      requires p != null ==> p.useCount == |Owners(world, p)|
      modifies this`d, Just(p)`useCount
      ensures d == p && Counted(world)
      ensures p != null ==> p.useCount == old(p.useCount) + 1
    {
      d := p;
      if p != null {
        p.useCount := p.useCount + 1;
        assert Owners(world, p) == old(Owners(world, p)) + {this};
      }
      forall r | r in world && r.d != null
        ensures r.d.useCount == |Owners(world, r.d)|
      {
        if r.d != p {
          assert Owners(world, r.d) == old(Owners(world, r.d));
        }
      }
    }

    /** Gives up the data, which others still own. */
    method Abandon(ghost world: set<Result>)
      requires this in world && Counted(world) && d != null && d.useCount > 1
      modifies this`d, d`useCount
      ensures d == null && Counted(world)
    {
      var p := d;
      p.useCount := p.useCount - 1;
      d := null;
      assert Owners(world, p) == old(Owners(world, p)) - {this};
      forall r | r in world && r.d != null
        ensures r.d.useCount == |Owners(world, r.d)|
      {
        if r.d != p {
          assert Owners(world, r.d) == old(Owners(world, r.d));
        }
      }
    }

    /** detach: afterwards the data, if any, has no other owner. */
    method Detach(ghost world: set<Result>)
      requires this in world && Counted(world)
      modifies this`d, Just(d)`useCount
      ensures Counted(world) && Look() == old(Look()) && OthersUntouched(world)
      ensures d == null <==> old(d) == null
      ensures d != null ==> Owners(world, d) == {this} && (d == old(d) || fresh(d))
    {
      if d == null {
        return;
      }
      if d.useCount == 1 {
        SoleOwner(world);
        return;
      }
      OwnsIt(world);
      var copied := new Data.Copy(d);
      Abandon(world);
      assert Owners(world, copied) == {};
      Adopt(copied, world);
      assert Owners(world, d) == {this};
    }

    lemma SoleOwner(world: set<Result>)
      requires this in world && d != null && |Owners(world, d)| == 1
      ensures Owners(world, d) == {this}
    {
      var owners := Owners(world, d);
      assert this in owners;
      assert |owners - {this}| == 0;
    }

    lemma OwnsIt(world: set<Result>)
      requires this in world && d != null
      ensures |Owners(world, d)| >= 1
    {
      assert this in Owners(world, d);
    }

    /** The truncated part of mergeWith, with as little detaching as possible. */
    method BecomeTruncated(other: Result, ghost world: set<Result>)
      requires this in world && other in world && Counted(world)
      requires other.d != null && other.d.truncated && !(d != null && d.truncated)
      modifies this`d, Just(d)
      ensures Counted(world) && error == old(error) && d != null && d.truncated
      ensures d == old(d) || fresh(d)
      ensures OthersUntouched(world)
    {
      Detach(world);
      if d == null {
        var copied := new Data.Copy(other.d);
        assert Owners(world, copied) == {};
        Adopt(copied, world);
      } else {
        assert forall r :: r in world && r.d == d ==> r in Owners(world, d);
        d.truncated := true;
      }
    }

    /** mergeWith: this result becomes the merge, and no other result sees a change. */
    method MergeWith(other: Result, ghost world: set<Result>)
      requires this in world && other in world && Counted(world)
      modifies this, Just(d), Just(other.d)`useCount
      ensures Counted(world)
      ensures Look() == Merge(old(Look()), old(other.Look()))
      ensures OthersUntouched(world)
      ensures d == null || d == old(d) || d == other.d || fresh(d)
    {
      if other.d == null && !other.error.Holds() {
        return;
      }
      if d == null && !error.Holds() {
        // just assign
        error := other.error;
        Adopt(other.d, world);
        return;
      }
      if (other.d != null && other.d.truncated) && !(d != null && d.truncated) {
        BecomeTruncated(other, world);
      }
      // only merge the error when there was none yet
      if !error.Holds() {
        error := other.error;
      }
    }
  }

  ghost function Looks(results: seq<Result>): (views: seq<View>)
    reads results, set r | r in results && r.d != null :: r.d
    ensures |views| == |results|
    ensures forall i :: 0 <= i < |results| ==> views[i] == results[i].Look()
  {
    seq(|results|, i requires 0 <= i < |results|
                     reads results, set r | r in results && r.d != null :: r.d => results[i].Look())
  }

  lemma MergeAllStep(first: View, views: seq<View>, k: nat)
    requires k < |views|
    ensures MergeAll(first, views[..k + 1]) == Merge(MergeAll(first, views[..k]), views[k])
  {
    assert views[..k + 1][..k] == views[..k];
  }

  /** Successive `+=` on one result: it becomes the fold of all of them, and all others stay as they are. */
  method MergeEach(first: Result, others: seq<Result>, ghost world: set<Result>)
    requires first in world && first !in others && Counted(world)
    requires forall r :: r in others ==> r in world
    modifies first, Shared(world)
    ensures Counted(world)
    ensures first.Look() == MergeAll(old(first.Look()), old(Looks(others)))
    ensures forall r :: r in world && r != first ==> r.d == old(r.d) && r.Look() == old(r.Look())
  {
    ghost var views := Looks(others);
    for k := 0 to |others|
      invariant Counted(world)
      invariant first.Look() == MergeAll(old(first.Look()), views[..k])
      invariant forall r :: r in world && r != first ==> r.d == old(r.d) && r.Look() == old(r.Look())
      invariant first.d != null ==> fresh(first.d) || first.d in old(Shared(world))
    {
      ghost var other := others[k];
      assert other in world && other != first && other.Look() == views[k];
      MergeAllStep(old(first.Look()), views, k);
      assert other.d != null ==> other.d in old(Shared(world));
      first.MergeWith(others[k], world);
    }
    assert views[..|others|] == views;
  }
}
