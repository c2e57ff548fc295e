/** Whole runs of the sign-key interactor: what the listing pass sends, when its assertion can fail,
    and the order of confirmation, "quit" and the saving "Y". */
module SignKeyRuns {
  import opened Errors
  import opened Integers
  import opened EditTypes
  import opened EditInteractor
  import opened SignKey
  import EditRuns

  /** How many user ids fit between the first listing state and UIDS_LIST_SEPARATELY_DONE. */
  const SLOTS: nat := UIDS_LIST_SEPARATELY_DONE - UIDS_LIST_SEPARATELY

  function Min(a: nat, b: nat): nat {
    if a < b then a else b
  }

  function Size(cfg: Settings): nat {
    |cfg.userIDs|
  }

  // ----- reading a transcript -----

  /** How often the signing command was sent from COMMAND, that is, how many passes have begun. */
  function Passes(sent: seq<Sent>): nat {
    if sent == [] then 0
    else Passes(sent[..|sent| - 1]) + (if sent[|sent| - 1].state == COMMAND then 1 else 0)
  }

  /** The lines sent from listing states, in order. */
  function ListedLines(sent: seq<Sent>): seq<string> {
    if sent == [] then []
    else
      var last := sent[|sent| - 1];
      ListedLines(sent[..|sent| - 1]) + (if Listing(last.state) then [last.line] else [])
  }

  /** The numbers of the first k selected user ids. */
  function IdLines(cfg: Settings, k: nat): (lines: seq<string>)
    requires k <= Size(cfg)
    ensures |lines| == k
  {
    seq(k, i requires 0 <= i < k => Decimal(Wanted(cfg.userIDs[i])))
  }

  lemma Snoc(sent: seq<Sent>, last: Sent)
    ensures Passes(sent + [last]) == Passes(sent) + (if last.state == COMMAND then 1 else 0)
    ensures ListedLines(sent + [last]) == ListedLines(sent) + (if Listing(last.state) then [last.line] else [])
  {
    assert (sent + [last])[..|sent|] == sent;
  }

  // ----- one callback -----

  /** The states between which a successful callback can move, whatever the prompt. */
  predicate Moves(cfg: Settings, cursor: nat, from: nat, to: nat) {
    if to == COMMAND then from == START_STATE || from == UIDS_LIST_SEPARATELY_DONE
    else if to == UIDS_ANSWER_SIGN_ALL then from == COMMAND
    else if to == UIDS_LIST_SEPARATELY then from == UIDS_ANSWER_SIGN_ALL && cfg.userIDs != []
    else if Listing(to) then from == to - 1 && Listing(from) && cursor != Size(cfg)
    else if to == UIDS_LIST_SEPARATELY_DONE then
      Listing(from) && (cursor == Size(cfg) || from == UIDS_LIST_SEPARATELY_DONE - 1)
    else if to == QUIT then from == CONFIRM
    else if to == SAVE then from == QUIT
    else
      && (SET_EXPIRE <= to <= CONFIRM)
      && (from == COMMAND || from == UIDS_ANSWER_SIGN_ALL || UIDS_LIST_SEPARATELY_DONE <= from <= CONFIRM)
  }

  predicate Silent(state: nat) {
    state == SET_TRUST_VALUE || state == SET_TRUST_DEPTH || state == SET_TRUST_REGEXP
  }

  /** Every way an error-free session can change. */
  ghost predicate StepShape(cfg: Settings, s: Session, r: Session)
    requires s.cursor <= Size(cfg)
  {
    || r == s
    || (r.error.Holds() && r.sent == s.sent && r.cursor == s.cursor && r.aborted == s.aborted)
    || (r == s.(state := r.state) && Silent(r.state) && Moves(cfg, s.cursor, s.state, r.state))
    || (r == s.(state := UIDS_LIST_SEPARATELY, aborted := true) && s.cursor == Size(cfg)
        && Moves(cfg, s.cursor, s.state, UIDS_LIST_SEPARATELY))
    || (exists last: Sent ::
          && r.sent == s.sent + [last]
          && Moves(cfg, s.cursor, s.state, last.state)
          && !Silent(last.state)
          && SignKey.Action(cfg, s.cursor, last.state) == Reply(last.line)
          && r.cursor == (if Listing(last.state) then s.cursor + 1 else s.cursor)
          && !r.aborted
          && (if last.complete then r.error == NoError && r.state == last.state else r.error.Holds()))
  }

  lemma MoveShape(cfg: Settings, cursor: nat, state: nat, ask: Ask)
    requires state != ERROR_STATE
    ensures var next := SignKey.NextState(cfg, cursor, state, NoError, ask);
            next.err.Holds() || next.state == state || next.state == ERROR_STATE
            || Moves(cfg, cursor, state, next.state)
    ensures var next := SignKey.NextState(cfg, cursor, state, NoError, ask);
            Moves(cfg, cursor, state, next.state) && next.state != state ==> next.state <= SAVE
  {
  }

  lemma PerformShape(cfg: Settings, s: Session, moved: Session, ev: Event)
    requires s.cursor <= Size(cfg) && s.error == NoError && !s.aborted && s.state != moved.state
    requires moved == s.(state := moved.state)
    requires moved.state == ERROR_STATE || Moves(cfg, s.cursor, s.state, moved.state)
    ensures StepShape(cfg, s, Perform(Sign(cfg), moved, ev))
  {
    var a := SignKey.Action(cfg, s.cursor, moved.state);
    var r := Perform(Sign(cfg), moved, ev);
    if a.Reply? {
      var last := Sent(moved.state, a.line, WriteError(a.line, ev).None?);
      assert r.sent == s.sent + [last];
    } else if a.AssertionFailure? {
      assert moved.state == UIDS_LIST_SEPARATELY;
    }
  }

  lemma Step(cfg: Settings, s: Session, ev: Event)
    requires s.cursor <= Size(cfg) && s.error == NoError && s.state != ERROR_STATE && !s.aborted
    ensures StepShape(cfg, s, Callback(Sign(cfg), s, ev))
  {
    if !StatusToError(ev.ask).Holds() {
      MoveShape(cfg, s.cursor, s.state, ev.ask);
      var next := SignKey.NextState(cfg, s.cursor, s.state, NoError, ev.ask);
      if !next.err.Holds() && next.state != s.state {
        PerformShape(cfg, s, s.(state := next.state), ev);
      }
    }
  }

  // ----- where the cursor stands -----

  /** The cursor as a function of the state and the number of passes begun. */
  predicate Placed(cfg: Settings, state: nat, cursor: nat, passes: nat) {
    if state == START_STATE then passes == 0 && cursor == 0
    else
      && passes >= 1
      && (if state == COMMAND || state == UIDS_ANSWER_SIGN_ALL then
            cursor == Min(Size(cfg), SLOTS * (passes - 1))
          else if Listing(state) then
            1 <= Size(cfg) && cursor == SLOTS * (passes - 1) + state - 2 <= Size(cfg)
          else if state == UIDS_LIST_SEPARATELY_DONE then
            1 <= Size(cfg) && cursor == Min(Size(cfg), SLOTS * passes)
          else state <= SAVE)
  }

  ghost predicate CursorInv(cfg: Settings, s: Session) {
    && s.cursor <= Size(cfg)
    && ListedLines(s.sent) == IdLines(cfg, s.cursor)
    && (s.aborted ==> 1 <= Size(cfg) <= SLOTS * (Passes(s.sent) - 1))
    && (s.error == NoError && !s.aborted ==> Placed(cfg, s.state, s.cursor, Passes(s.sent)))
  }

  lemma IdLinesSnoc(cfg: Settings, k: nat)
    requires k < Size(cfg)
    ensures IdLines(cfg, k + 1) == IdLines(cfg, k) + [Decimal(Wanted(cfg.userIDs[k]))]
  {
  }

  /** A move to a state that replies keeps the cursor placed. */
  lemma PlacedStep(cfg: Settings, from: nat, cursor: nat, passes: nat, to: nat)
    requires Placed(cfg, from, cursor, passes) && cursor <= Size(cfg) && Moves(cfg, cursor, from, to)
    requires Listing(to) ==> cursor < Size(cfg)
    ensures Placed(cfg, to, if Listing(to) then cursor + 1 else cursor, if to == COMMAND then passes + 1 else passes)
  {
  }

  lemma AbortStep(cfg: Settings, from: nat, cursor: nat, passes: nat)
    requires Placed(cfg, from, cursor, passes) && Moves(cfg, cursor, from, UIDS_LIST_SEPARATELY)
    ensures cursor == Size(cfg) ==> 1 <= Size(cfg) <= SLOTS * (passes - 1)
  {
  }

  lemma ListedSnoc(cfg: Settings, sent: seq<Sent>, cursor: nat, last: Sent)
    requires cursor <= Size(cfg) && ListedLines(sent) == IdLines(cfg, cursor)
    requires SignKey.Action(cfg, cursor, last.state) == Reply(last.line)
    ensures var cursor' := if Listing(last.state) then cursor + 1 else cursor;
            cursor' <= Size(cfg) && ListedLines(sent + [last]) == IdLines(cfg, cursor')
  {
    Snoc(sent, last);
    if Listing(last.state) {
      IdLinesSnoc(cfg, cursor);
    }
  }

  /** A reply keeps the listed lines and the cursor in step. */
  lemma CursorReply(cfg: Settings, s: Session, last: Sent)
    requires CursorInv(cfg, s) && s.error == NoError && !s.aborted
    requires Moves(cfg, s.cursor, s.state, last.state)
    requires SignKey.Action(cfg, s.cursor, last.state) == Reply(last.line)
    ensures var cursor' := if Listing(last.state) then s.cursor + 1 else s.cursor;
            && cursor' <= Size(cfg)
            && ListedLines(s.sent + [last]) == IdLines(cfg, cursor')
            && Placed(cfg, last.state, cursor', Passes(s.sent + [last]))
  {
    ListedSnoc(cfg, s.sent, s.cursor, last);
    Snoc(s.sent, last);
    PlacedStep(cfg, s.state, s.cursor, Passes(s.sent), last.state);
  }

  lemma CursorStep(cfg: Settings, s: Session, r: Session)
    requires CursorInv(cfg, s) && s.error == NoError && !s.aborted && StepShape(cfg, s, r)
    ensures CursorInv(cfg, r)
  {
    if r.sent != s.sent {
      var last :| r.sent == s.sent + [last]
                  && Moves(cfg, s.cursor, s.state, last.state)
                  && SignKey.Action(cfg, s.cursor, last.state) == Reply(last.line)
                  && r.cursor == (if Listing(last.state) then s.cursor + 1 else s.cursor)
                  && !r.aborted
                  && (if last.complete then r.state == last.state else r.error.Holds());
      CursorReply(cfg, s, last);
    } else if r.aborted {
      AbortStep(cfg, s.state, s.cursor, Passes(s.sent));
    } else if r.error == NoError && r != s {
      PlacedStep(cfg, s.state, s.cursor, Passes(s.sent), r.state);
    }
  }

  // ----- the order of the lines -----

  /** What one entry of the transcript may be, given the entry before it. */
  predicate EntryOk(cfg: Settings, sent: seq<Sent>, i: nat)
    requires i < |sent|
  {
    && (!Listing(sent[i].state) ==> SignKey.Action(cfg, 0, sent[i].state) == Reply(sent[i].line))
    && (Listing(sent[i].state) ==> exists k :: 0 <= k < Size(cfg) && sent[i].line == Decimal(Wanted(cfg.userIDs[k])))
    && (sent[i].state == QUIT ==> 0 < i && sent[i - 1].state == CONFIRM)
    && (sent[i].state == SAVE <==> 0 < i && sent[i - 1].state == QUIT)
    && (0 < i ==> sent[i - 1].state != SAVE && sent[i - 1].complete)
  }

  ghost predicate OrderInv(cfg: Settings, s: Session) {
    && (forall i :: 0 <= i < |s.sent| ==> EntryOk(cfg, s.sent, i))
    && (s.error == NoError && !s.aborted ==>
          if s.state == START_STATE then s.sent == []
          else s.sent != [] && (Silent(s.state) || s.sent[|s.sent| - 1].state == s.state)
               && (Silent(s.state) ==> s.sent[|s.sent| - 1].state < QUIT)
               && s.sent[|s.sent| - 1].complete)
  }

  lemma OrderStep(cfg: Settings, s: Session, r: Session)
    requires s.cursor <= Size(cfg) && OrderInv(cfg, s) && s.error == NoError && !s.aborted
    requires StepShape(cfg, s, r)
    ensures OrderInv(cfg, r)
  {
    if r.sent != s.sent {
      var n := |s.sent|;
      var last := r.sent[n];
      assert r.sent == s.sent + [last];
      assert EntryOk(cfg, r.sent, n) by {
        if Listing(last.state) {
          assert last.line == Decimal(Wanted(cfg.userIDs[s.cursor]));
        }
      }
      forall i | 0 <= i < n
        ensures EntryOk(cfg, r.sent, i)
      {
        assert EntryOk(cfg, s.sent, i);
      }
    }
  }

  // ----- the first pass, line by line -----

  function IdReplies(cfg: Settings, k: nat): (replies: seq<Sent>)
    requires k <= Size(cfg)
    ensures |replies| == k
  {
    seq(k, i requires 0 <= i < k => Sent(UIDS_LIST_SEPARATELY + i, Decimal(Wanted(cfg.userIDs[i])), true))
  }

  /** Everything sent from the start of a session up to `state` of the first pass. */
  function Opening(cfg: Settings, state: nat, cursor: nat): seq<Sent>
    requires cursor <= Size(cfg)
  {
    [Sent(COMMAND, Command(cfg.options), true)]
    + (if state >= UIDS_ANSWER_SIGN_ALL then [Sent(UIDS_ANSWER_SIGN_ALL, Answer(SignAll(cfg)), true)] else [])
    + (if state >= UIDS_LIST_SEPARATELY then IdReplies(cfg, cursor) else [])
    + (if state == UIDS_LIST_SEPARATELY_DONE then [Sent(state, Command(cfg.options), true)] else [])
  }

  predicate InFirstPass(s: Session) {
    s.error == NoError && !s.aborted && Passes(s.sent) == 1 && s.state <= UIDS_LIST_SEPARATELY_DONE
  }

  ghost predicate OpeningInv(cfg: Settings, s: Session)
    requires s.cursor <= Size(cfg)
  {
    InFirstPass(s) ==> s.sent == Opening(cfg, s.state, s.cursor)
  }

  lemma IdRepliesSnoc(cfg: Settings, k: nat)
    requires k < Size(cfg)
    ensures IdReplies(cfg, k + 1)
         == IdReplies(cfg, k) + [Sent(UIDS_LIST_SEPARATELY + k, Decimal(Wanted(cfg.userIDs[k])), true)]
  {
  }

  lemma OpeningSnoc(cfg: Settings, from: nat, cursor: nat, last: Sent)
    requires cursor <= Size(cfg) && Placed(cfg, from, cursor, 1) && Moves(cfg, cursor, from, last.state)
    requires COMMAND < last.state <= UIDS_LIST_SEPARATELY_DONE && last.complete
    requires SignKey.Action(cfg, cursor, last.state) == Reply(last.line)
    ensures var cursor' := if Listing(last.state) then cursor + 1 else cursor;
            Opening(cfg, from, cursor) + [last] == Opening(cfg, last.state, cursor')
  {
    if Listing(last.state) {
      IdRepliesSnoc(cfg, cursor);
      assert last.state == UIDS_LIST_SEPARATELY + cursor;
      assert last == Sent(UIDS_LIST_SEPARATELY + cursor, Decimal(Wanted(cfg.userIDs[cursor])), true);
      if from == UIDS_ANSWER_SIGN_ALL {
        assert IdReplies(cfg, cursor) == [];
      }
    }
  }

  /** A complete reply within the first pass extends what the pass has sent so far. */
  lemma OpeningReply(cfg: Settings, s: Session, last: Sent)
    requires CursorInv(cfg, s) && OrderInv(cfg, s) && OpeningInv(cfg, s)
    requires s.error == NoError && !s.aborted && last.complete && last.state <= UIDS_LIST_SEPARATELY_DONE
    requires Passes(s.sent + [last]) == 1 && Moves(cfg, s.cursor, s.state, last.state)
    requires SignKey.Action(cfg, s.cursor, last.state) == Reply(last.line)
    ensures var cursor' := if Listing(last.state) then s.cursor + 1 else s.cursor;
            cursor' <= Size(cfg) && s.sent + [last] == Opening(cfg, last.state, cursor')
  {
    Snoc(s.sent, last);
    if last.state == COMMAND {
      assert s.sent == [];
      assert last == Sent(COMMAND, Command(cfg.options), true);
    } else {
      OpeningSnoc(cfg, s.state, s.cursor, last);
    }
  }

  lemma OpeningStep(cfg: Settings, s: Session, r: Session)
    requires CursorInv(cfg, s) && OrderInv(cfg, s) && OpeningInv(cfg, s)
    requires s.error == NoError && !s.aborted && StepShape(cfg, s, r)
    ensures r.cursor <= Size(cfg) && OpeningInv(cfg, r)
  {
    if r.sent != s.sent && InFirstPass(r) {
      var last :| r.sent == s.sent + [last]
                  && Moves(cfg, s.cursor, s.state, last.state)
                  && SignKey.Action(cfg, s.cursor, last.state) == Reply(last.line)
                  && r.cursor == (if Listing(last.state) then s.cursor + 1 else s.cursor)
                  && (if last.complete then r.state == last.state else r.error.Holds());
      OpeningReply(cfg, s, last);
    }
  }

  // ----- every run -----

  lemma {:induction false} SignRuns(cfg: Settings, events: seq<Event>)
    ensures var s := Run(Sign(cfg), events); CursorInv(cfg, s) && OrderInv(cfg, s) && OpeningInv(cfg, s)
  {
    if events != [] {
      var front, ev := events[..|events| - 1], events[|events| - 1];
      SignRuns(cfg, front);
      InvStep(cfg, Run(Sign(cfg), front), front, ev);
    } else {
      assert ListedLines([]) == IdLines(cfg, 0);
    }
  }

  lemma InvStep(cfg: Settings, s: Session, front: seq<Event>, ev: Event)
    requires s == Run(Sign(cfg), front)
    requires CursorInv(cfg, s) && OrderInv(cfg, s) && OpeningInv(cfg, s)
    ensures var r := Callback(Sign(cfg), s, ev); CursorInv(cfg, r) && OrderInv(cfg, r) && OpeningInv(cfg, r)
  {
    EditRuns.DriverAgreement(Sign(cfg), front);
    if s.aborted {
    } else if s.error == NoError {
      Step(cfg, s, ev);
      var r := Callback(Sign(cfg), s, ev);
      CursorStep(cfg, s, r);
      OrderStep(cfg, s, r);
      OpeningStep(cfg, s, r);
    } else {
      EditRuns.QuietStep(Sign(cfg), s, ev);
    }
  }

  lemma ListingShape(cfg: Settings, s: Session)
    requires CursorInv(cfg, s) && OpeningInv(cfg, s) && InFirstPass(s) && Listing(s.state)
    ensures var k := s.state - UIDS_ANSWER_SIGN_ALL;
            && 1 <= k == s.cursor
            && s.sent == [Sent(COMMAND, Command(cfg.options), true), Sent(UIDS_ANSWER_SIGN_ALL, "N", true)]
                         + IdReplies(cfg, k)
  {
    var command, signAll := Sent(COMMAND, Command(cfg.options), true), Sent(UIDS_ANSWER_SIGN_ALL, "N", true);
    assert s.sent == [command] + [signAll] + IdReplies(cfg, s.cursor) + [];
    assert [command] + [signAll] == [command, signAll];
  }

  // ----- main results -----

  /** Standing in the k-th listing state of the first pass means k ids were handed out, and the lines
      sent are the command, "N" and the first k numbers in order. */
  lemma ListingPass(cfg: Settings, events: seq<Event>)
    ensures var s := Run(Sign(cfg), events);
            s.cursor <= Size(cfg) &&
            (InFirstPass(s) && Listing(s.state) ==>
               var k := s.state - UIDS_ANSWER_SIGN_ALL;
               && 1 <= k == s.cursor
               && s.sent == [Sent(COMMAND, Command(cfg.options), true), Sent(UIDS_ANSWER_SIGN_ALL, "N", true)]
                            + IdReplies(cfg, k))
  {
    SignRuns(cfg, events);
    var s := Run(Sign(cfg), events);
    if InFirstPass(s) && Listing(s.state) {
      ListingShape(cfg, s);
    }
  }

  /** In every run, over any number of passes and whatever fails, the numbers sent are those of the
      selected ids, from the first on, each once and in order. */
  lemma ListedInOrder(cfg: Settings, events: seq<Event>)
    ensures var s := Run(Sign(cfg), events);
            s.cursor <= Size(cfg) && ListedLines(s.sent) == IdLines(cfg, s.cursor)
  {
    SignRuns(cfg, events);
  }

  /** Read as numbers, the listed lines are the indices of the selected ids counted from one (the largest
      index wraps to zero). */
  lemma ListedNumbers(cfg: Settings, events: seq<Event>, i: nat)
    requires i < |ListedLines(Run(Sign(cfg), events).sent)|
    ensures i < Size(cfg)
    ensures ReadDecimal(ListedLines(Run(Sign(cfg), events).sent)[i])
         == if cfg.userIDs[i] == 0xFFFF_FFFF then 0 else cfg.userIDs[i] + 1
  {
    ListedInOrder(cfg, events);
    NumberAt(cfg, |ListedLines(Run(Sign(cfg), events).sent)|, i);
    WantedIs(cfg.userIDs[i]);
  }

  lemma NumberAt(cfg: Settings, k: nat, i: nat)
    requires i < k <= Size(cfg)
    ensures ReadDecimal(IdLines(cfg, k)[i]) == Wanted(cfg.userIDs[i])
  {
    var wanted := Wanted(cfg.userIDs[i]);
    assert IdLines(cfg, k)[i] == Decimal(wanted);
    DecimalRoundTrip(wanted);
  }

  lemma WantedIs(id: UInt32)
    ensures Wanted(id) == if id == 0xFFFF_FFFF then 0 else id + 1
  {
  }

  /** UIDS_LIST_SEPARATELY_DONE means that all ids were sent if and only if they fit the free slots of the
      passes so far; with more ids the state counter arrives there first. */
  lemma DoneSentAllIff(cfg: Settings, events: seq<Event>)
    requires var s := Run(Sign(cfg), events);
             s.error == NoError && !s.aborted && s.state == UIDS_LIST_SEPARATELY_DONE
    ensures var s := Run(Sign(cfg), events);
            var slots := 999997 * Passes(s.sent);
            && ListedLines(s.sent) == IdLines(cfg, Min(Size(cfg), slots))
            && (ListedLines(s.sent) == IdLines(cfg, Size(cfg)) <==> Size(cfg) <= slots)
  {
    SignRuns(cfg, events);
  }

  /** nextUserID's assertion fails exactly when a listing begins although the earlier passes offered
      enough slots for all ids. */
  lemma AbortsExactlyWhen(cfg: Settings, events: seq<Event>, ev: Event)
    requires !Run(Sign(cfg), events).aborted
    ensures var s := Run(Sign(cfg), events);
            Run(Sign(cfg), events + [ev]).aborted <==>
              && s.error == NoError && s.state == UIDS_ANSWER_SIGN_ALL && ev.ask.Line(KeyeditPrompt)
              && 1 <= Size(cfg) <= SLOTS * (Passes(s.sent) - 1)
  {
    var s := Run(Sign(cfg), events);
    EditRuns.RunStep(Sign(cfg), INITIAL, events, ev);
    SignRuns(cfg, events);
    EditRuns.DriverAgreement(Sign(cfg), events);
    AbortStepIff(cfg, s, ev);
  }

  lemma AbortStepIff(cfg: Settings, s: Session, ev: Event)
    requires CursorInv(cfg, s) && !s.aborted && EditRuns.Agreement(Sign(cfg), s)
    ensures Callback(Sign(cfg), s, ev).aborted <==>
              && s.error == NoError && s.state == UIDS_ANSWER_SIGN_ALL && ev.ask.Line(KeyeditPrompt)
              && 1 <= Size(cfg) <= SLOTS * (Passes(s.sent) - 1)
  {
    if s.error != NoError {
      EditRuns.QuietStep(Sign(cfg), s, ev);
    } else if s.state == UIDS_ANSWER_SIGN_ALL && ev.ask.Line(KeyeditPrompt) {
      assert StatusToError(ev.ask) == NoError && !NeedsNoResponse(ev.ask);
      assert Transition(Key(s.state, ev.ask)) == None;
    } else {
      Step(cfg, s, ev);
      if !StatusToError(ev.ask).Holds() {
        MoveShape(cfg, s.cursor, s.state, ev.ask);
        OnlyFromAnswer(cfg, s.cursor, s.state, ev.ask);
      }
    }
  }

  lemma OnlyFromAnswer(cfg: Settings, cursor: nat, state: nat, ask: Ask)
    requires state != ERROR_STATE
    requires !(state == UIDS_ANSWER_SIGN_ALL && ask.Line(KeyeditPrompt))
    ensures SignKey.NextState(cfg, cursor, state, NoError, ask).state != UIDS_LIST_SEPARATELY
            || state == UIDS_LIST_SEPARATELY
  {
  }

  /** In particular the first pass is safe: an aborted run has begun a second one. */
  lemma FirstPassIsSafe(cfg: Settings, events: seq<Event>)
    ensures Run(Sign(cfg), events).aborted ==> 2 <= Passes(Run(Sign(cfg), events).sent)
  {
    SignRuns(cfg, events);
  }

  const PROMPT: Event := EditRuns.Ok(GetLine, KeyeditPrompt)
  const SIGN_ALL: Event := EditRuns.Ok(GetBool, SignAllOkay)

  /** Command and sign-all prompts, then k command-line prompts. */
  function ListingStream(k: nat): seq<Event> {
    if k == 0 then [PROMPT, SIGN_ALL] else ListingStream(k - 1) + [PROMPT]
  }

  /** A command-line prompt begins a pass, the sign-all question is then answered. */
  lemma BeginPass(cfg: Settings, s: Session)
    requires s.error == NoError && !s.aborted && s.cursor <= Size(cfg)
    requires s.state == START_STATE || s.state == UIDS_LIST_SEPARATELY_DONE
    ensures Callback(Sign(cfg), s, PROMPT)
         == s.(state := COMMAND, sent := s.sent + [Sent(COMMAND, Command(cfg.options), true)])
  {
  }

  lemma AnswerSignAll(cfg: Settings, s: Session)
    requires s.error == NoError && !s.aborted && s.cursor <= Size(cfg) && s.state == COMMAND
    ensures Callback(Sign(cfg), s, SIGN_ALL)
         == s.(state := UIDS_ANSWER_SIGN_ALL,
               sent := s.sent + [Sent(UIDS_ANSWER_SIGN_ALL, Answer(SignAll(cfg)), true)])
  {
  }

  lemma PassBegun(cfg: Settings, events: seq<Event>)
    requires var s := Run(Sign(cfg), events);
             && s.error == NoError && !s.aborted
             && (s.state == START_STATE || s.state == UIDS_LIST_SEPARATELY_DONE)
    ensures var s, r := Run(Sign(cfg), events), Run(Sign(cfg), events + [PROMPT] + [SIGN_ALL]);
            && r.error == NoError && !r.aborted && r.state == UIDS_ANSWER_SIGN_ALL && r.cursor == s.cursor
            && Passes(r.sent) == Passes(s.sent) + 1
  {
    var c, s := Sign(cfg), Run(Sign(cfg), events);
    EditRuns.RunStep(c, INITIAL, events, PROMPT);
    EditRuns.RunStep(c, INITIAL, events + [PROMPT], SIGN_ALL);
    BeginPass(cfg, s);
    var t := Callback(c, s, PROMPT);
    AnswerSignAll(cfg, t);
    Snoc(s.sent, Sent(COMMAND, Command(cfg.options), true));
    Snoc(t.sent, Sent(UIDS_ANSWER_SIGN_ALL, Answer(SignAll(cfg)), true));
  }

  lemma {:induction false} ListingReached(cfg: Settings, k: nat)
    requires 1 <= Size(cfg) && k <= Min(Size(cfg), SLOTS)
    ensures var s := Run(Sign(cfg), ListingStream(k));
            s.error == NoError && !s.aborted && s.state == UIDS_ANSWER_SIGN_ALL + k && s.cursor == k
            && Passes(s.sent) == 1
  {
    if k == 0 {
      ListingBegun(cfg);
    } else {
      ListingReached(cfg, k - 1);
      ListingStep(cfg, k, Run(Sign(cfg), ListingStream(k - 1)));
    }
  }

  lemma ListingStep(cfg: Settings, k: nat, s: Session)
    requires 1 <= k <= Min(Size(cfg), SLOTS) && s == Run(Sign(cfg), ListingStream(k - 1))
    requires s.error == NoError && !s.aborted && s.state == UIDS_ANSWER_SIGN_ALL + k - 1 && s.cursor == k - 1
    ensures var r := Run(Sign(cfg), ListingStream(k));
            r.error == NoError && !r.aborted && r.state == UIDS_ANSWER_SIGN_ALL + k && r.cursor == k
            && Passes(r.sent) == Passes(s.sent)
  {
    EditRuns.RunStep(Sign(cfg), INITIAL, ListingStream(k - 1), PROMPT);
    ListOne(cfg, s);
  }

  lemma ListingBegun(cfg: Settings)
    ensures var s := Run(Sign(cfg), ListingStream(0));
            s.error == NoError && !s.aborted && s.state == UIDS_ANSWER_SIGN_ALL && s.cursor == 0
            && Passes(s.sent) == 1
  {
    PassBegun(cfg, []);
    assert [] + [PROMPT] + [SIGN_ALL] == ListingStream(0);
  }

  /** One more prompt in the listing sends one more number. */
  lemma ListOne(cfg: Settings, s: Session)
    requires s.error == NoError && !s.aborted && s.cursor < Size(cfg)
    requires UIDS_ANSWER_SIGN_ALL <= s.state < UIDS_LIST_SEPARATELY_DONE - 1
    ensures var r := Callback(Sign(cfg), s, PROMPT);
            r.error == NoError && !r.aborted && r.state == s.state + 1 && r.cursor == s.cursor + 1
            && Passes(r.sent) == Passes(s.sent)
  {
    assert Transition(Key(s.state, PROMPT.ask)) == None;
    var last := Sent(s.state + 1, Decimal(Wanted(cfg.userIDs[s.cursor])), true);
    assert Callback(Sign(cfg), s, PROMPT).sent == s.sent + [last];
    Snoc(s.sent, last);
  }

  /** The end of the first pass is reached for every non-empty selection. */
  lemma DoneReached(cfg: Settings)
    requires 1 <= Size(cfg)
    ensures var s := Run(Sign(cfg), ListingStream(Min(Size(cfg), SLOTS) + 1));
            InFirstPass(s) && s.state == UIDS_LIST_SEPARATELY_DONE && s.cursor == Min(Size(cfg), SLOTS)
  {
    var k := Min(Size(cfg), SLOTS);
    ListingReached(cfg, k);
    EditRuns.RunStep(Sign(cfg), INITIAL, ListingStream(k), PROMPT);
    var s := Run(Sign(cfg), ListingStream(k));
    assert Transition(Key(s.state, PROMPT.ask)) == None;
    var last := Sent(UIDS_LIST_SEPARATELY_DONE, Command(cfg.options), true);
    assert Callback(Sign(cfg), s, PROMPT).sent == s.sent + [last];
    Snoc(s.sent, last);
  }

  /** The bound is tight: every longer selection has a run that reaches the end with ids unsent. */
  lemma TooManyIds(cfg: Settings)
    requires 999997 < Size(cfg)
    ensures var s := Run(Sign(cfg), ListingStream(999998));
            s.error == NoError && s.state == UIDS_LIST_SEPARATELY_DONE && |ListedLines(s.sent)| == 999997
  {
    DoneReached(cfg);
    DoneSentAllIff(cfg, ListingStream(999998));
  }

  /** A second sign-all pass always runs into the assertion when the first sent every id. */
  lemma SecondPassAborts(cfg: Settings)
    requires 1 <= Size(cfg) <= 999997
    ensures Run(Sign(cfg), ListingStream(Size(cfg) + 1) + [PROMPT] + [SIGN_ALL] + [PROMPT]).aborted
  {
    DoneReached(cfg);
    PassBegun(cfg, ListingStream(Size(cfg) + 1));
    AbortsExactlyWhen(cfg, ListingStream(Size(cfg) + 1) + [PROMPT] + [SIGN_ALL], PROMPT);
  }

  lemma QuitLine(cfg: Settings, sent: seq<Sent>, i: nat)
    requires i < |sent| && EntryOk(cfg, sent, i)
    ensures sent[i].line == "quit" <==> sent[i].state == QUIT
  {
    if Listing(sent[i].state) {
      var k :| 0 <= k < Size(cfg) && sent[i].line == Decimal(Wanted(cfg.userIDs[k]));
      DecimalRoundTrip(Wanted(cfg.userIDs[k]));
      assert "quit"[0] == 'q';
    } else {
      assert sent[i].line != Command(cfg.options) || sent[i].line[0] != 'q';
    }
  }

  /** "quit" is only ever sent right after a completely written confirmation "Y"; at most the saving
      "Y" follows it, and nothing follows that. The saving "Y" is only sent right after "quit". */
  lemma QuitOnlyAfterConfirmation(cfg: Settings, events: seq<Event>, i: nat)
    requires i < |Run(Sign(cfg), events).sent|
    ensures var sent := Run(Sign(cfg), events).sent;
            && (sent[i].line == "quit" ==>
                  && 0 < i && sent[i - 1] == Sent(CONFIRM, "Y", true)
                  && |sent| <= i + 2
                  && (i + 1 < |sent| ==> sent[i + 1].state == SAVE && sent[i + 1].line == "Y"))
            && (sent[i].state == SAVE ==> 0 < i && sent[i - 1].line == "quit" && |sent| == i + 1)
  {
    SignRuns(cfg, events);
    var sent := Run(Sign(cfg), events).sent;
    assert EntryOk(cfg, sent, i);
    QuitLine(cfg, sent, i);
    if 0 < i {
      assert EntryOk(cfg, sent, i - 1);
      QuitLine(cfg, sent, i - 1);
    }
    if i + 1 < |sent| {
      assert EntryOk(cfg, sent, i + 1);
    }
    if i + 2 < |sent| {
      assert EntryOk(cfg, sent, i + 2);
    }
  }

  lemma SelfLoops(cfg: Settings, cursor: nat, state: nat, ask: Ask)
    requires state != ERROR_STATE && !NeedsNoResponse(ask)
    requires var next := SignKey.NextState(cfg, cursor, state, NoError, ask);
             !next.err.Holds() && next.state == state
    ensures state == CONFIRM && (ask.Bool(LocalPromoteOkay) || ask.Bool(SignUidOkay))
  {
  }

  /** What a sign-key session may do with a status that needs a response, besides answering it. */
  predicate Unanswered(s: Session, ev: Event, r: Session) {
    || (r == s && s.state == CONFIRM && (ev.ask.Bool(LocalPromoteOkay) || ev.ask.Bool(SignUidOkay)))
    || (r == s.(state := r.state) && Silent(r.state) && r.state != s.state)
    || r.aborted
  }

  /** Without errors so far and with writes that succeed, the only statuses needing a response that get
      neither a line nor an error are the two CONFIRM self-loops, the moves into the three trust
      states, and the failing assertion. */
  lemma SignResponsive(cfg: Settings, events: seq<Event>, ev: Event)
    requires var s := Run(Sign(cfg), events); s.error == NoError && !s.aborted
    requires EditRuns.WritesSucceed(ev)
    ensures var s, r := Run(Sign(cfg), events), Run(Sign(cfg), events + [ev]);
            EditRuns.Answered(s, ev, r) || (!NeedsNoResponse(ev.ask) && Unanswered(s, ev, r))
  {
    var c, s := Sign(cfg), Run(Sign(cfg), events);
    EditRuns.RunStep(c, INITIAL, events, ev);
    EditRuns.DriverAgreement(c, events);
    ResponsiveStep(cfg, s, ev);
  }

  lemma ResponsiveStep(cfg: Settings, s: Session, ev: Event)
    requires CursorOk(Sign(cfg), s) && s.error == NoError && s.state != ERROR_STATE && !s.aborted
    requires EditRuns.WritesSucceed(ev)
    ensures var r := Callback(Sign(cfg), s, ev);
            EditRuns.Answered(s, ev, r) || (!NeedsNoResponse(ev.ask) && Unanswered(s, ev, r))
  {
    if !StatusToError(ev.ask).Holds() && !NeedsNoResponse(ev.ask) {
      var next := SignKey.NextState(cfg, s.cursor, s.state, NoError, ev.ask);
      if !next.err.Holds() {
        if next.state == s.state {
          SelfLoops(cfg, s.cursor, s.state, ev.ask);
        } else {
          MoveShape(cfg, s.cursor, s.state, ev.ask);
        }
      }
    }
  }
}
