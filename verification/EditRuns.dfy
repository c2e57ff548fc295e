/** Whole runs of the edit protocol: what holds for all four interactors, and the fixed scripts of
    the three linear ones. Every statement ranges over every stream of callbacks and every pattern
    of write errors. */
module EditRuns {
  import opened Errors
  import opened EditTypes
  import opened EditInteractor
  import AddUserId
  import SetExpiryTime
  import SetOwnerTrust
  import SignKey

  // ----- runs -----

  lemma RunStep(c: Config, s: Session, events: seq<Event>, ev: Event)
    requires CursorOk(c, s)
    ensures RunFrom(c, s, events + [ev]) == Callback(c, RunFrom(c, s, events), ev)
  {
    assert (events + [ev])[..|events|] == events;
  }

  lemma {:induction false} RunAppend(c: Config, s: Session, a: seq<Event>, b: seq<Event>)
    requires CursorOk(c, s)
    ensures RunFrom(c, s, a + b) == RunFrom(c, RunFrom(c, s, a), b)
    decreases |b|
  {
    if b == [] {
      assert a + b == a;
    } else {
      var front, last := b[..|b| - 1], b[|b| - 1];
      RunAppend(c, s, a, front);
      RunStep(c, s, a + front, last);
      RunStep(c, RunFrom(c, s, a), front, last);
      assert a + b == (a + front) + [last] && b == front + [last];
    }
  }

  // ----- driver and interactor agree on errors -----

  function Quit(c: Config): nat {
    match c
    case AddUser(_) => AddUserId.QUIT
    case Expiry(_) => SetExpiryTime.QUIT
    case Trust(_) => SetOwnerTrust.QUIT
    case Sign(_) => SignKey.QUIT
  }

  function Save(c: Config): nat {
    match c
    case AddUser(_) => AddUserId.SAVE
    case Expiry(_) => SetExpiryTime.SAVE
    case Trust(_) => SetOwnerTrust.SAVE
    case Sign(_) => SignKey.SAVE
  }

  predicate Agreement(c: Config, s: Session) {
    && (s.state == ERROR_STATE ==> s.error.Holds())
    && (s.error != NoError ==> s.error.Holds() && (s.state == ERROR_STATE || s.state == Quit(c) || s.state == Save(c)))
  }

  lemma AgreementStep(c: Config, s: Session, ev: Event)
    requires CursorOk(c, s) && Agreement(c, s)
    ensures Agreement(c, Callback(c, s, ev))
  {
  }

  /** In every reachable state ErrorState means a stored error, and a stored error means ErrorState,
      QUIT or SAVE. */
  lemma {:induction false} DriverAgreement(c: Config, events: seq<Event>)
    ensures Agreement(c, Run(c, events))
  {
    if events != [] {
      var front := events[..|events| - 1];
      DriverAgreement(c, front);
      AgreementStep(c, Run(c, front), events[|events| - 1]);
    }
  }

  // ----- quiet after failure -----

  lemma {:induction false} QuietFrom(c: Config, s: Session, events: seq<Event>)
    requires CursorOk(c, s) && s.error.Holds()
    ensures var r := RunFrom(c, s, events);
            r.error.Holds() && r.sent == s.sent && r.cursor == s.cursor && r.aborted == s.aborted
    decreases |events|
  {
    if events != [] {
      var front := events[..|events| - 1];
      QuietFrom(c, s, front);
      QuietStep(c, RunFrom(c, s, front), events[|events| - 1]);
    }
  }

  /** Once a run has stored an error, whatever follows leaves an error stored (which every callback
      returns), attempts no further line and moves no cursor. */
  lemma QuietAfterFailure(c: Config, before: seq<Event>, after: seq<Event>)
    requires Run(c, before).error != NoError
    ensures var s, r := Run(c, before), Run(c, before + after);
            r.error.Holds() && r.sent == s.sent && r.cursor == s.cursor && r.aborted == s.aborted
  {
    DriverAgreement(c, before);
    RunAppend(c, INITIAL, before, after);
    QuietFrom(c, Run(c, before), after);
  }

  // ----- linear transcripts -----

  function Lines(sent: seq<Sent>): (lines: seq<string>)
    ensures |lines| == |sent|
  {
    seq(|sent|, i requires 0 <= i < |sent| => sent[i].line)
  }

  /** The fixed script of a linear interactor. Only setting the owner trust has a choice: whether gpg
      asks to confirm ultimate trust. */
  function Script(c: Config, ultimate: bool): seq<string>
    requires !c.Sign?
  {
    match c
    case AddUser(f) => ["adduid", f.name, f.email, f.comment, "quit", "Y"]
    case Expiry(date) => ["expire", date, "quit", "Y"]
    case Trust(trust) =>
      ["trust", SetOwnerTrust.TrustString(trust)] + (if ultimate then ["Y"] else []) + ["quit", "Y"]
  }

  /** How much of the script has been sent in an error-free session standing in `state`. */
  function Position(c: Config, ultimate: bool, state: nat): nat {
    if c.Trust? && !ultimate && state > SetOwnerTrust.REALLY_ULTIMATE then state - 1 else state
  }

  predicate AllButLastComplete(s: Session) {
    forall i :: 0 <= i < |s.sent| && !s.sent[i].complete ==> i == |s.sent| - 1 && s.error != NoError
  }

  predicate Rising(sent: seq<Sent>) {
    forall i, j :: 0 <= i < j < |sent| ==> sent[i].state < sent[j].state
  }

  ghost predicate OnScript(c: Config, s: Session, ultimate: bool)
    requires !c.Sign?
  {
    && Lines(s.sent) <= Script(c, ultimate)
    && (s.error == NoError ==>
          && s.state <= Save(c)
          && |s.sent| == Position(c, ultimate, s.state)
          && (c.Trust? && s.state == SetOwnerTrust.REALLY_ULTIMATE ==> ultimate))
  }

  /** Replies are for rising states, complete except perhaps a last one whose failure is stored. */
  ghost predicate BooksKept(s: Session) {
    && AllButLastComplete(s)
    && Rising(s.sent)
    && (s.error == NoError ==> forall i :: 0 <= i < |s.sent| ==> s.sent[i].state <= s.state)
    && !s.aborted
  }

  ghost predicate LinearInv(c: Config, s: Session)
    requires !c.Sign?
  {
    (OnScript(c, s, false) || OnScript(c, s, true)) && BooksKept(s)
  }

  /** The state changes that draw a reply: one step up, or over REALLY_ULTIMATE. */
  predicate Advances(c: Config, from: nat, to: nat) {
    && from < to <= Save(c)
    && (to == from + 1 || (c.Trust? && from == SetOwnerTrust.VALUE && to == SetOwnerTrust.QUIT))
  }

  /** What one callback can do to an error-free linear session. */
  ghost predicate StepShape(c: Config, s: Session, r: Session)
    requires CursorOk(c, s)
  {
    if r.sent == s.sent then
      r == s || (r.error.Holds() && r.state == ERROR_STATE && !r.aborted)
    else
      && s.sent < r.sent
      && |r.sent| == |s.sent| + 1
      && var last := r.sent[|s.sent|];
         && Advances(c, s.state, last.state)
         && Action(c, s.(state := last.state)) == Reply(last.line)
         && !r.aborted
         && (if last.complete then r.error == NoError && r.state == last.state
             else r.error.Holds() && r.state == ERROR_STATE)
  }

  lemma LinearShape(c: Config, s: Session, ev: Event)
    requires !c.Sign? && CursorOk(c, s) && Agreement(c, s) && !s.aborted && s.error == NoError
    ensures StepShape(c, s, Callback(c, s, ev))
  {
    if !StatusToError(ev.ask).Holds() {
      var next := NextState(c, s, ev.ask);
      if !next.err.Holds() && next.state != s.state {
        assert Advances(c, s.state, next.state);
        PerformShape(c, s, s.(state := next.state), ev);
      }
    }
  }

  lemma PerformShape(c: Config, s: Session, moved: Session, ev: Event)
    requires !c.Sign? && moved == s.(state := moved.state) && !s.aborted && s.error == NoError
    requires Advances(c, s.state, moved.state)
    ensures StepShape(c, s, Perform(c, moved, ev))
  {
    assert Action(c, moved).Reply?;
    var last := Sent(moved.state, Action(c, moved).line, WriteError(Action(c, moved).line, ev).None?);
    assert Perform(c, moved, ev).sent == s.sent + [last];
  }

  /** Each advance is answered with the script's next line. */
  lemma ScriptLine(c: Config, ultimate: bool, s: Session, from: nat)
    requires !c.Sign? && Advances(c, from, s.state)
    requires c.Trust? && SetOwnerTrust.REALLY_ULTIMATE in {from, s.state} ==> ultimate
    requires c.Trust? && from == SetOwnerTrust.VALUE && s.state == SetOwnerTrust.QUIT ==> !ultimate
    ensures Position(c, ultimate, s.state) == Position(c, ultimate, from) + 1 <= |Script(c, ultimate)|
    ensures Action(c, s) == Reply(Script(c, ultimate)[Position(c, ultimate, from)])
  {
  }

  /** Up to the trust value the two scripts agree. */
  lemma EitherScript(c: Config, s: Session, ultimate: bool)
    requires !c.Sign? && OnScript(c, s, ultimate) && s.error == NoError
    requires s.state <= SetOwnerTrust.VALUE
    ensures OnScript(c, s, !ultimate)
  {
    if c.Trust? {
      assert Script(c, ultimate)[..s.state] == Script(c, !ultimate)[..s.state];
      assert Lines(s.sent) == Script(c, ultimate)[..s.state];
    }
  }

  lemma ScriptSnoc(c: Config, s: Session, r: Session, ultimate: bool)
    requires !c.Sign? && CursorOk(c, s) && s.error == NoError && StepShape(c, s, r) && r.sent != s.sent
    requires OnScript(c, s, ultimate)
    requires var to := r.sent[|s.sent|].state;
             && (c.Trust? && SetOwnerTrust.REALLY_ULTIMATE in {s.state, to} ==> ultimate)
             && (c.Trust? && s.state == SetOwnerTrust.VALUE && to == SetOwnerTrust.QUIT ==> !ultimate)
    ensures OnScript(c, r, ultimate)
  {
    var last := r.sent[|s.sent|];
    ScriptLine(c, ultimate, s.(state := last.state), s.state);
    assert Lines(r.sent) == Lines(s.sent) + [last.line];
  }

  lemma BooksStep(c: Config, s: Session, r: Session)
    requires CursorOk(c, s) && s.error == NoError && StepShape(c, s, r) && BooksKept(s)
    ensures BooksKept(r)
  {
  }

  lemma ScriptStep(c: Config, s: Session, r: Session)
    requires !c.Sign? && CursorOk(c, s) && s.error == NoError && StepShape(c, s, r)
    requires OnScript(c, s, false) || OnScript(c, s, true)
    ensures OnScript(c, r, false) || OnScript(c, r, true)
  {
    if r.sent != s.sent {
      var ultimate := if OnScript(c, s, true) then true else false;
      var to := r.sent[|s.sent|].state;
      if c.Trust? && s.state == SetOwnerTrust.VALUE && ultimate != (to == SetOwnerTrust.REALLY_ULTIMATE) {
        EitherScript(c, s, ultimate);
        ultimate := !ultimate;
      }
      ScriptSnoc(c, s, r, ultimate);
    }
  }

  lemma LinearStep(c: Config, s: Session, ev: Event)
    requires !c.Sign? && CursorOk(c, s) && Agreement(c, s) && LinearInv(c, s)
    ensures LinearInv(c, Callback(c, s, ev))
  {
    if s.error == NoError {
      LinearShape(c, s, ev);
      BooksStep(c, s, Callback(c, s, ev));
      ScriptStep(c, s, Callback(c, s, ev));
    } else {
      QuietStep(c, s, ev);
    }
  }

  lemma QuietStep(c: Config, s: Session, ev: Event)
    requires CursorOk(c, s) && s.error.Holds()
    ensures var r := Callback(c, s, ev);
            r.error.Holds() && r.sent == s.sent && r.cursor == s.cursor && r.aborted == s.aborted
  {
  }

  lemma {:induction false} LinearRuns(c: Config, events: seq<Event>)
    requires !c.Sign?
    ensures LinearInv(c, Run(c, events))
  {
    if events != [] {
      var front := events[..|events| - 1];
      LinearRuns(c, front);
      DriverAgreement(c, front);
      LinearStep(c, Run(c, front), events[|events| - 1]);
    } else {
      assert Lines([]) <= Script(c, false);
    }
  }

  /** In every run the lines of a linear interactor are a prefix of its script, at most 6, 4 or 5 of
      them; without a stored error all are complete and the state tells how many there are. */
  lemma LinearTranscript(c: Config, events: seq<Event>)
    requires !c.Sign?
    ensures var s := Run(c, events);
            exists ultimate ::
              && Lines(s.sent) <= Script(c, ultimate)
              && (s.error == NoError ==> |s.sent| == Position(c, ultimate, s.state))
    ensures var n := |Run(c, events).sent|;
            n <= match c case AddUser(_) => 6 case Expiry(_) => 4 case Trust(_) => 5
    ensures Rising(Run(c, events).sent) && AllButLastComplete(Run(c, events)) && !Run(c, events).aborted
  {
    LinearRuns(c, events);
    var s := Run(c, events);
    var ultimate := OnScript(c, s, true);
    assert OnScript(c, s, ultimate);
    assert |Lines(s.sent)| <= |Script(c, ultimate)|;
  }

  /** An error-free session gains a line exactly when its state rises. */
  lemma RiseWithEachLine(c: Config, events: seq<Event>, ev: Event)
    requires !c.Sign?
    ensures var s, r := Run(c, events), Run(c, events + [ev]);
            r.error == NoError ==>
              && s.error == NoError
              && |r.sent| - |s.sent| == (if r.state != s.state then 1 else 0)
              && s.state <= r.state
  {
    var s, r := Run(c, events), Run(c, events + [ev]);
    RunStep(c, INITIAL, events, ev);
    LinearRuns(c, events);
    DriverAgreement(c, events);
    if s.error == NoError {
      LinearShape(c, s, ev);
    } else {
      QuietStep(c, s, ev);
    }
  }

  predicate WritesSucceed(ev: Event) {
    ev.textError.None? && ev.newlineError.None?
  }

  /** What the driver owes gpg for one status. */
  predicate Answered(s: Session, ev: Event, r: Session) {
    if NeedsNoResponse(ev.ask) then
      r == if StatusToError(ev.ask) == NoError then s else Fail(s, StatusToError(ev.ask))
    else
      || (r.error == NoError && |r.sent| == |s.sent| + 1 && r.sent[|s.sent|].complete)
      || (r.error.Holds() && r.sent == s.sent)
  }

  lemma ResponsiveStep(c: Config, s: Session, ev: Event)
    requires !c.Sign? && CursorOk(c, s) && Agreement(c, s) && !s.aborted && s.error == NoError
    requires WritesSucceed(ev)
    ensures Answered(s, ev, Callback(c, s, ev))
  {
    if !StatusToError(ev.ask).Holds() && !NeedsNoResponse(ev.ask) {
      var next := NextState(c, s, ev.ask);
      if !next.err.Holds() {
        assert Advances(c, s.state, next.state);
        PerformShape(c, s, s.(state := next.state), ev);
      }
    }
  }

  /** Without errors so far and with writes that succeed, a linear interactor answers every status
      that needs a response with one complete line or stores an error; any other status changes
      nothing unless it is itself an error. */
  lemma LinearResponsive(c: Config, events: seq<Event>, ev: Event)
    requires !c.Sign? && Run(c, events).error == NoError && WritesSucceed(ev)
    ensures Answered(Run(c, events), ev, Run(c, events + [ev]))
  {
    RunStep(c, INITIAL, events, ev);
    LinearRuns(c, events);
    DriverAgreement(c, events);
    ResponsiveStep(c, Run(c, events), ev);
  }

  lemma RejectedFieldStep(f: AddUserId.Fields, s: Session, ev: Event)
    requires s.error == NoError && !s.aborted && ev.ask.status.GetLine?
    ensures var r := Callback(AddUser(f), s, ev);
            && (s.state == AddUserId.NAME ==> (r.error == InvName <==> ev.ask.prompt == KeygenName))
            && (s.state == AddUserId.EMAIL ==> (r.error == InvUserId <==> ev.ask.prompt == KeygenEmail))
            && (s.state == AddUserId.COMMENT ==> (r.error == InvUserId <==> ev.ask.prompt == KeygenComment))
  {
  }

  /** A field gpg asks for again was rejected: adding a user id then stores the error of that field. */
  lemma RejectedFieldError(f: AddUserId.Fields, events: seq<Event>, ev: Event)
    requires Run(AddUser(f), events).error == NoError && ev.ask.status.GetLine?
    ensures var s, r := Run(AddUser(f), events), Run(AddUser(f), events + [ev]);
            && (s.state == AddUserId.NAME ==> (r.error == InvName <==> ev.ask.prompt == KeygenName))
            && (s.state == AddUserId.EMAIL ==> (r.error == InvUserId <==> ev.ask.prompt == KeygenEmail))
            && (s.state == AddUserId.COMMENT ==> (r.error == InvUserId <==> ev.ask.prompt == KeygenComment))
  {
    RunStep(AddUser(f), INITIAL, events, ev);
    LinearRuns(AddUser(f), events);
    RejectedFieldStep(f, Run(AddUser(f), events), ev);
  }

  /** Setting the expiry time does not: asked for the date again it stores a general error, and the
      error for an invalid time comes with exactly the other unexpected lines. */
  lemma RejectedDateError(date: string, events: seq<Event>, ev: Event)
    requires var s := Run(Expiry(date), events); s.error == NoError && s.state == SetExpiryTime.DATE
    requires ev.ask.status.GetLine?
    ensures var r := Run(Expiry(date), events + [ev]);
            && (ev.ask.prompt == KeygenValid ==> r.error == General)
            && (r.error == InvTime <==> ev.ask.prompt != KeygenValid && ev.ask.prompt != KeyeditPrompt)
  {
    RunStep(Expiry(date), INITIAL, events, ev);
    LinearRuns(Expiry(date), events);
  }

  // ----- every script is attained -----

  function Ok(status: Status, prompt: Prompt): Event {
    Event(Ask(status, prompt), None, None)
  }

  /** The prompts gpg sends when everything goes as planned. */
  function HappyStream(c: Config, ultimate: bool): seq<Event>
    requires !c.Sign?
  {
    match c
    case AddUser(_) =>
      [Ok(GetLine, KeyeditPrompt), Ok(GetLine, KeygenName), Ok(GetLine, KeygenEmail), Ok(GetLine, KeygenComment),
       Ok(GetLine, KeyeditPrompt), Ok(GetBool, KeyeditSaveOkay)]
    case Expiry(_) =>
      [Ok(GetLine, KeyeditPrompt), Ok(GetLine, KeygenValid), Ok(GetLine, KeyeditPrompt), Ok(GetBool, KeyeditSaveOkay)]
    case Trust(_) =>
      [Ok(GetLine, KeyeditPrompt), Ok(GetLine, OwnertrustValue)]
      + (if ultimate then [Ok(GetBool, OwnertrustSetUltimate)] else [])
      + [Ok(GetLine, KeyeditPrompt), Ok(GetBool, KeyeditSaveOkay)]
  }

  /** The first k lines of the script have been sent, all complete, and nothing else happened. */
  predicate HappyAt(c: Config, ultimate: bool, k: nat, s: Session)
    requires !c.Sign? && k <= |Script(c, ultimate)|
  {
    && s.error == NoError && !s.aborted && s.state <= Save(c)
    && k == Position(c, ultimate, s.state)
    && (c.Trust? && s.state == SetOwnerTrust.REALLY_ULTIMATE ==> ultimate)
    && Lines(s.sent) == Script(c, ultimate)[..k]
    && forall i :: 0 <= i < |s.sent| ==> s.sent[i].complete
  }

  /** `ev` makes the session advance along the script without any failure. */
  predicate Onward(c: Config, ultimate: bool, s: Session, ev: Event)
    requires !c.Sign?
  {
    var next := NextState(c, s, ev.ask);
    && WritesSucceed(ev) && StatusToError(ev.ask) == NoError
    && next.err == NoError && Advances(c, s.state, next.state)
    && (c.Trust? && SetOwnerTrust.REALLY_ULTIMATE in {s.state, next.state} ==> ultimate)
    && (c.Trust? && s.state == SetOwnerTrust.VALUE && next.state == SetOwnerTrust.QUIT ==> !ultimate)
  }

  lemma HappyMove(c: Config, ultimate: bool, s: Session, k: nat)
    requires !c.Sign? && 1 <= k <= |Script(c, ultimate)| == |HappyStream(c, ultimate)|
    requires HappyAt(c, ultimate, k - 1, s)
    ensures Onward(c, ultimate, s, HappyStream(c, ultimate)[k - 1])
  {
  }

  lemma HappyStep(c: Config, ultimate: bool, s: Session, ev: Event, k: nat)
    requires !c.Sign? && 1 <= k <= |Script(c, ultimate)|
    requires HappyAt(c, ultimate, k - 1, s) && Onward(c, ultimate, s, ev)
    ensures HappyAt(c, ultimate, k, Callback(c, s, ev))
  {
    var moved := s.(state := NextState(c, s, ev.ask).state);
    ScriptLine(c, ultimate, moved, s.state);
    var line := Script(c, ultimate)[k - 1];
    var r := moved.(sent := s.sent + [Sent(moved.state, line, true)]);
    assert Action(c, moved) == Reply(line);
    assert Perform(c, moved, ev) == r;
    assert Callback(c, s, ev) == r;
    LinesSnoc(s.sent, Sent(moved.state, line, true));
  }

  lemma LinesSnoc(sent: seq<Sent>, last: Sent)
    ensures Lines(sent + [last]) == Lines(sent) + [last.line]
  {
  }

  lemma SameLength(c: Config, ultimate: bool)
    requires !c.Sign?
    ensures |HappyStream(c, ultimate)| == |Script(c, ultimate)|
  {
  }

  /** Every script is attained: after k expected prompts exactly its first k lines have been sent. */
  lemma {:induction false} ScriptAttained(c: Config, ultimate: bool, k: nat)
    requires !c.Sign? && k <= |Script(c, ultimate)|
    ensures |HappyStream(c, ultimate)| == |Script(c, ultimate)|
    ensures HappyAt(c, ultimate, k, Run(c, HappyStream(c, ultimate)[..k]))
  {
    SameLength(c, ultimate);
    var stream := HappyStream(c, ultimate);
    if k == 0 {
      assert stream[..0] == [];
    } else {
      ScriptAttained(c, ultimate, k - 1);
      assert stream[..k] == stream[..k - 1] + [stream[k - 1]];
      RunStep(c, INITIAL, stream[..k - 1], stream[k - 1]);
      HappyMove(c, ultimate, Run(c, stream[..k - 1]), k);
      HappyStep(c, ultimate, Run(c, stream[..k - 1]), stream[k - 1], k);
    }
  }
}
