/** What gpg may ask and what it gets, in the words of the protocol: which prompts are accepted when, which
    line answers which prompt, and which error any other status leaves behind. */
module EditPrompts {
  import opened Errors
  import opened EditTypes
  import opened EditInteractor
  import opened EditSessions
  import EditRuns
  import AddUserId
  import SetExpiryTime
  import SetOwnerTrust
  import SignKey

  // ----- the argument strings -----

  /** Every prompt is recognized by its own text and by no other. */
  lemma Texts(args: string)
    ensures Classify(args) == KeyeditPrompt <==> args == "keyedit.prompt"
    ensures Classify(args) == KeyeditSaveOkay <==> args == "keyedit.save.okay"
    ensures Classify(args) == KeygenName <==> args == "keygen.name"
    ensures Classify(args) == KeygenEmail <==> args == "keygen.email"
    ensures Classify(args) == KeygenComment <==> args == "keygen.comment"
    ensures Classify(args) == KeygenValid <==> args == "keygen.valid"
    ensures Classify(args) == OwnertrustValue <==> args == "edit_ownertrust.value"
    ensures Classify(args) == OwnertrustSetUltimate <==> args == "edit_ownertrust.set_ultimate.okay"
    ensures Classify(args) == SignAllOkay <==> args == "keyedit.sign_all.okay"
    ensures Classify(args) == SignUidOkay <==> args == "sign_uid.okay"
    ensures Classify(args) == SignUidExpire <==> args == "sign_uid.expire"
    ensures Classify(args) == SignUidClass <==> args == "sign_uid.class"
    ensures Classify(args) == LocalPromoteOkay <==> args == "sign_uid.local_promote_okay"
    ensures Classify(args) == TrustValue <==> args == "trustsign_prompt.trust_value"
    ensures Classify(args) == TrustDepth <==> args == "trustsign_prompt.trust_depth"
    ensures Classify(args) == TrustRegexp <==> args == "trustsign_prompt.trust_regexp"
  {
    TextsOfKeyPrompts(args);
    TextsOfTrustPrompts(args);
    TextsOfSigningPrompts(args);
    TextsOfTrustSigningPrompts(args);
    KeyPrompts();
    TrustPrompts();
    SigningPrompts();
    TrustSigningPrompts();
  }

  lemma TextsOfKeyPrompts(args: string)
    ensures Classify(args) == KeyeditPrompt ==> args == "keyedit.prompt"
    ensures Classify(args) == KeyeditSaveOkay ==> args == "keyedit.save.okay"
    ensures Classify(args) == KeygenName ==> args == "keygen.name"
    ensures Classify(args) == KeygenEmail ==> args == "keygen.email"
    ensures Classify(args) == KeygenComment ==> args == "keygen.comment"
    ensures Classify(args) == KeygenValid ==> args == "keygen.valid"
  {
  }

  lemma TextsOfTrustPrompts(args: string)
    ensures Classify(args) == OwnertrustValue ==> args == "edit_ownertrust.value"
    ensures Classify(args) == OwnertrustSetUltimate ==> args == "edit_ownertrust.set_ultimate.okay"
    ensures Classify(args) == SignAllOkay ==> args == "keyedit.sign_all.okay"
  {
  }

  lemma TextsOfSigningPrompts(args: string)
    ensures Classify(args) == SignUidOkay ==> args == "sign_uid.okay"
    ensures Classify(args) == SignUidExpire ==> args == "sign_uid.expire"
    ensures Classify(args) == SignUidClass ==> args == "sign_uid.class"
    ensures Classify(args) == LocalPromoteOkay ==> args == "sign_uid.local_promote_okay"
  {
  }

  lemma TextsOfTrustSigningPrompts(args: string)
    ensures Classify(args) == TrustValue ==> args == "trustsign_prompt.trust_value"
    ensures Classify(args) == TrustDepth ==> args == "trustsign_prompt.trust_depth"
    ensures Classify(args) == TrustRegexp ==> args == "trustsign_prompt.trust_regexp"
  {
  }

  lemma KeyPrompts()
    ensures Classify("keyedit.prompt") == KeyeditPrompt
    ensures Classify("keyedit.save.okay") == KeyeditSaveOkay
    ensures Classify("keygen.name") == KeygenName
    ensures Classify("keygen.email") == KeygenEmail
    ensures Classify("keygen.comment") == KeygenComment
    ensures Classify("keygen.valid") == KeygenValid
  {
  }

  lemma TrustPrompts()
    ensures Classify("edit_ownertrust.value") == OwnertrustValue
    ensures Classify("edit_ownertrust.set_ultimate.okay") == OwnertrustSetUltimate
    ensures Classify("keyedit.sign_all.okay") == SignAllOkay
  {
  }

  lemma SigningPrompts()
    ensures Classify("sign_uid.okay") == SignUidOkay
    ensures Classify("sign_uid.expire") == SignUidExpire
    ensures Classify("sign_uid.class") == SignUidClass
    ensures Classify("sign_uid.local_promote_okay") == LocalPromoteOkay
  {
  }

  lemma TrustSigningPrompts()
    ensures Classify("trustsign_prompt.trust_value") == TrustValue
    ensures Classify("trustsign_prompt.trust_depth") == TrustDepth
    ensures Classify("trustsign_prompt.trust_regexp") == TrustRegexp
  {
  }

  // ----- the linear interactors -----

  /** What gpg asks, in order, when everything goes as planned. */
  function Questions(c: Config, ultimate: bool): seq<StatusLine>
    requires !c.Sign?
  {
    match c
    case AddUser(_) =>
      [StatusLine(GetLine, "keyedit.prompt"), StatusLine(GetLine, "keygen.name"), StatusLine(GetLine, "keygen.email"),
       StatusLine(GetLine, "keygen.comment"), StatusLine(GetLine, "keyedit.prompt"),
       StatusLine(GetBool, "keyedit.save.okay")]
    case Expiry(_) =>
      [StatusLine(GetLine, "keyedit.prompt"), StatusLine(GetLine, "keygen.valid"),
       StatusLine(GetLine, "keyedit.prompt"), StatusLine(GetBool, "keyedit.save.okay")]
    case Trust(_) =>
      [StatusLine(GetLine, "keyedit.prompt"), StatusLine(GetLine, "edit_ownertrust.value")]
      + (if ultimate then [StatusLine(GetBool, "edit_ownertrust.set_ultimate.okay")] else [])
      + [StatusLine(GetLine, "keyedit.prompt"), StatusLine(GetBool, "keyedit.save.okay")]
  }

  /** A status as the interactors see it, with writes that succeed. */
  function Heard(line: StatusLine): Event {
    EditRuns.Ok(line.status, Classify(line.args))
  }

  lemma QuestionTexts()
    ensures Classify("keyedit.prompt") == KeyeditPrompt
    ensures Classify("keyedit.save.okay") == KeyeditSaveOkay
    ensures Classify("keygen.name") == KeygenName
    ensures Classify("keygen.email") == KeygenEmail
    ensures Classify("keygen.comment") == KeygenComment
    ensures Classify("keygen.valid") == KeygenValid
    ensures Classify("edit_ownertrust.value") == OwnertrustValue
    ensures Classify("edit_ownertrust.set_ultimate.okay") == OwnertrustSetUltimate
  {
    Texts("keyedit.prompt");
    Texts("keyedit.save.okay");
    Texts("keygen.name");
    Texts("keygen.email");
    Texts("keygen.comment");
    Texts("keygen.valid");
    Texts("edit_ownertrust.value");
    Texts("edit_ownertrust.set_ultimate.okay");
  }

  lemma QuestionsAreHappy(c: Config, ultimate: bool, k: nat)
    requires !c.Sign? && k < |EditRuns.Script(c, ultimate)|
    ensures |Questions(c, ultimate)| == |EditRuns.HappyStream(c, ultimate)| == |EditRuns.Script(c, ultimate)|
    ensures Heard(Questions(c, ultimate)[k]) == EditRuns.HappyStream(c, ultimate)[k]
  {
    QuestionTexts();
  }

  /** The question that comes next on a script of which the lines sent are the beginning. */
  ghost predicate IsNext(c: Config, s: Session, ultimate: bool, line: StatusLine)
    requires !c.Sign?
  {
    && EditRuns.Lines(s.sent) <= EditRuns.Script(c, ultimate)
    && |s.sent| < |Questions(c, ultimate)|
    && Questions(c, ultimate)[|s.sent|] == line
  }

  /** The script being followed is the one that the lines sent are the beginning of. */
  lemma OnScriptIff(c: Config, s: Session, ultimate: bool)
    requires !c.Sign? && EditRuns.LinearInv(c, s) && s.error == NoError
    ensures EditRuns.Lines(s.sent) <= EditRuns.Script(c, ultimate) <==> EditRuns.OnScript(c, s, ultimate)
  {
    if c.Trust? {
      assert EditRuns.Script(c, true)[2] == "Y" && EditRuns.Script(c, false)[2] == "quit";
    }
  }

  predicate Awaited(c: Config, ultimate: bool, state: nat, ask: Ask)
    requires !c.Sign?
  {
    var k := EditRuns.Position(c, ultimate, state);
    && (c.Trust? && state == SetOwnerTrust.REALLY_ULTIMATE ==> ultimate)
    && k < |EditRuns.HappyStream(c, ultimate)| && EditRuns.HappyStream(c, ultimate)[k].ask == ask
  }

  lemma AcceptedAt(c: Config, s: Session, ask: Ask)
    requires !c.Sign? && s.state <= EditRuns.Save(c) && !NeedsNoResponse(ask)
    ensures NextState(c, s, ask).err == NoError <==> Awaited(c, false, s.state, ask) || Awaited(c, true, s.state, ask)
    ensures NextState(c, s, ask).err == NoError || NextState(c, s, ask).err.Holds()
  {
  }

  lemma NextIsAwaited(c: Config, s: Session, ultimate: bool, line: StatusLine)
    requires !c.Sign? && EditRuns.OnScript(c, s, ultimate) && s.error == NoError
    ensures IsNext(c, s, ultimate, line) ==> Awaited(c, ultimate, s.state, Ask(line.status, Classify(line.args)))
    ensures Awaited(c, ultimate, s.state, Ask(line.status, Classify(line.args))) ==> IsNext(c, s, ultimate, line)
  {
    EditRuns.SameLength(c, ultimate);
    var k := |s.sent|;
    if k < |EditRuns.Script(c, ultimate)| {
      QuestionsAreHappy(c, ultimate, k);
      SameText(line, Questions(c, ultimate)[k]);
    }
  }

  /** Of two lines, one of them a question of gpg, both are heard alike only if they are the same. */
  lemma SameText(a: StatusLine, b: StatusLine)
    requires Classify(b.args) != OtherPrompt
    ensures Heard(a).ask == Heard(b).ask <==> a == b
  {
    Texts(a.args);
    Texts(b.args);
  }

  /** Statuses that ask for something, or report something the driver does not map to an error. */
  predicate Inquires(status: Status) {
    status.GetLine? || status.GetBool? || status.ErrorStatus? || status.KeyCreated? || status.NeedPassphraseSym?
    || status.ScOpFailure?
  }

  /** What an error-free linear session holds against a line it did not await. */
  function Objection(c: Config, sent: nat, line: StatusLine): Error
    requires !c.Sign?
  {
    if line.status != GetLine then General
    else if c.AddUser? && sent == 2 && line.args == "keygen.name" then InvName
    else if c.AddUser? && sent == 3 && line.args == "keygen.email" then InvUserId
    else if c.AddUser? && sent == 4 && line.args == "keygen.comment" then InvUserId
    else if c.Expiry? && sent == 2 && line.args != "keygen.valid" then InvTime
    else General
  }

  /** The same for a prompt as the interactor in `state` sees it. */
  function ObjectionAt(c: Config, state: nat, ask: Ask): Error
    requires !c.Sign?
  {
    if c.AddUser? && state == AddUserId.NAME && ask.Line(KeygenName) then InvName
    else if c.AddUser? && state == AddUserId.EMAIL && ask.Line(KeygenEmail) then InvUserId
    else if c.AddUser? && state == AddUserId.COMMENT && ask.Line(KeygenComment) then InvUserId
    else if c.Expiry? && state == SetExpiryTime.DATE && ask.status.GetLine? && ask.prompt != KeygenValid then InvTime
    else General
  }

  lemma Refused(c: Config, s: Session, ask: Ask)
    requires !c.Sign? && s.state <= EditRuns.Save(c) && !NeedsNoResponse(ask)
    requires !Awaited(c, false, s.state, ask) && !Awaited(c, true, s.state, ask)
    ensures NextState(c, s, ask) == Next(ERROR_STATE, ObjectionAt(c, s.state, ask))
  {
  }

  lemma FieldTexts(args: string)
    ensures Classify(args) == KeygenName <==> args == "keygen.name"
    ensures Classify(args) == KeygenEmail <==> args == "keygen.email"
    ensures Classify(args) == KeygenComment <==> args == "keygen.comment"
    ensures Classify(args) == KeygenValid <==> args == "keygen.valid"
  {
    Texts(args);
  }

  lemma SameObjection(c: Config, s: Session, line: StatusLine)
    requires !c.Sign? && EditRuns.LinearInv(c, s) && s.error == NoError
    ensures ObjectionAt(c, s.state, Ask(line.status, Classify(line.args))) == Objection(c, |s.sent|, line)
  {
    FieldTexts(line.args);
    assert !c.Trust? ==> |s.sent| == s.state;
  }

  lemma ObjectionStep(c: Config, s: Session, line: StatusLine)
    requires !c.Sign? && CursorOk(c, s) && EditRuns.LinearInv(c, s) && s.error == NoError && Inquires(line.status)
    requires var ask := Ask(line.status, Classify(line.args));
             !Awaited(c, false, s.state, ask) && !Awaited(c, true, s.state, ask)
    ensures Callback(c, s, Heard(line)) == Fail(s, Objection(c, |s.sent|, line))
  {
    Refused(c, s, Ask(line.status, Classify(line.args)));
    SameObjection(c, s, line);
  }

  /** An awaited question advances along the script. */
  lemma AwaitedAdvances(c: Config, ultimate: bool, s: Session, ask: Ask)
    requires !c.Sign? && EditRuns.OnScript(c, s, ultimate) && s.error == NoError
    requires !NeedsNoResponse(ask) && Awaited(c, ultimate, s.state, ask)
    ensures var next := NextState(c, s, ask);
            && next.err == NoError && EditRuns.Advances(c, s.state, next.state)
            && (c.Trust? && SetOwnerTrust.REALLY_ULTIMATE in {s.state, next.state} ==> ultimate)
            && (c.Trust? && s.state == SetOwnerTrust.VALUE && next.state == SetOwnerTrust.QUIT ==> !ultimate)
  {
  }

  lemma ReplySent(c: Config, s: Session, line: StatusLine, text: string)
    requires CursorOk(c, s) && !c.Sign? && s.error == NoError && !s.aborted && Inquires(line.status)
    requires var next := NextState(c, s, Ask(line.status, Classify(line.args)));
             next.err == NoError && next.state != s.state && Action(c, s.(state := next.state)) == Act.Reply(text)
    ensures var next := NextState(c, s, Ask(line.status, Classify(line.args)));
            Callback(c, s, Heard(line)) == s.(state := next.state, sent := s.sent + [Sent(next.state, text, true)])
  {
  }

  lemma AnswerStep(c: Config, s: Session, ultimate: bool, line: StatusLine)
    requires !c.Sign? && CursorOk(c, s) && s.error == NoError && !s.aborted
    requires EditRuns.OnScript(c, s, ultimate) && Inquires(line.status)
    requires Awaited(c, ultimate, s.state, Ask(line.status, Classify(line.args)))
    ensures |s.sent| < |EditRuns.Script(c, ultimate)|
    ensures var r := Callback(c, s, Heard(line));
            r.error == NoError && r.sent == s.sent + [Sent(r.state, EditRuns.Script(c, ultimate)[|s.sent|], true)]
  {
    var ask := Ask(line.status, Classify(line.args));
    AwaitedAdvances(c, ultimate, s, ask);
    var moved := s.(state := NextState(c, s, ask).state);
    EditRuns.ScriptLine(c, ultimate, moved, s.state);
    ReplySent(c, s, line, EditRuns.Script(c, ultimate)[|s.sent|]);
  }

  /** The protocol of the linear interactors. What has been sent determines what gpg may ask next; that
      question, and no other, draws the next line of the script, and anything else is an error. */
  lemma LinearProtocol(c: Config, events: seq<Event>, line: StatusLine)
    requires !c.Sign? && Run(c, events).error == NoError && Inquires(line.status)
    ensures var s, r := Run(c, events), Run(c, events + [Heard(line)]);
            && (forall ultimate :: IsNext(c, s, ultimate, line) ==>
                  && r.error == NoError
                  && r.sent == s.sent + [Sent(r.state, EditRuns.Script(c, ultimate)[|s.sent|], true)])
            && (!IsNext(c, s, false, line) && !IsNext(c, s, true, line) ==> r == Fail(s, Objection(c, |s.sent|, line)))
  {
    var s := Run(c, events);
    EditRuns.RunStep(c, INITIAL, events, Heard(line));
    EditRuns.LinearRuns(c, events);
    EditRuns.DriverAgreement(c, events);
    forall ultimate | IsNext(c, s, ultimate, line)
      ensures Callback(c, s, Heard(line)).error == NoError
      ensures |s.sent| < |EditRuns.Script(c, ultimate)|
      ensures var r := Callback(c, s, Heard(line));
              r.sent == s.sent + [Sent(r.state, EditRuns.Script(c, ultimate)[|s.sent|], true)]
    {
      OnScriptIff(c, s, ultimate);
      NextIsAwaited(c, s, ultimate, line);
      AnswerStep(c, s, ultimate, line);
    }
    if !IsNext(c, s, false, line) && !IsNext(c, s, true, line) {
      NotAwaited(c, s, line);
      ObjectionStep(c, s, line);
    }
  }

  lemma NotAwaited(c: Config, s: Session, line: StatusLine)
    requires !c.Sign? && EditRuns.LinearInv(c, s) && s.error == NoError
    requires !IsNext(c, s, false, line) && !IsNext(c, s, true, line)
    ensures var ask := Ask(line.status, Classify(line.args));
            !Awaited(c, false, s.state, ask) && !Awaited(c, true, s.state, ask)
  {
    forall ultimate: bool
      ensures !Awaited(c, ultimate, s.state, Ask(line.status, Classify(line.args)))
    {
      if EditRuns.OnScript(c, s, ultimate) {
        NextIsAwaited(c, s, ultimate, line);
      } else {
        OnScriptIff(c, s, ultimate);
        OnScriptIff(c, s, !ultimate);
        NextIsAwaited(c, s, !ultimate, line);
      }
    }
  }

  /** The questions, as gpg spells them, draw exactly the lines of the script, one by one. */
  lemma {:induction false} QuestionsAnswered(c: Config, ultimate: bool, k: nat)
    requires !c.Sign? && k <= |EditRuns.Script(c, ultimate)|
    ensures |Questions(c, ultimate)| == |EditRuns.Script(c, ultimate)|
    ensures var r := Converse(c, Start([]), Asks(Questions(c, ultimate)[..k]));
            r.session.error == NoError && r.wire == Joined(EditRuns.Script(c, ultimate)[..k])
  {
    EditRuns.SameLength(c, ultimate);
    EditRuns.ScriptAttained(c, ultimate, k);
    HeardIsHappy(c, ultimate, k);
    var asks := Asks(Questions(c, ultimate)[..k]);
    ConverseIsRun(c, Start([]), asks);
    WireIsLines(c, [], asks);
  }

  lemma HeardIsHappy(c: Config, ultimate: bool, k: nat)
    requires !c.Sign? && k <= |EditRuns.Script(c, ultimate)|
    ensures k <= |Questions(c, ultimate)| == |EditRuns.HappyStream(c, ultimate)| == |EditRuns.Script(c, ultimate)|
    ensures Events(c, Start([]), Asks(Questions(c, ultimate)[..k])) == EditRuns.HappyStream(c, ultimate)[..k]
  {
    EditRuns.SameLength(c, ultimate);
    var asks := Asks(Questions(c, ultimate)[..k]);
    var events := Events(c, Start([]), asks);
    ConverseSucceeds(c, Start([]), asks);
    forall i | 0 <= i < k
      ensures events[i] == EditRuns.HappyStream(c, ultimate)[i]
    {
      EventsAsk(c, Start([]), asks, i);
      QuestionsAreHappy(c, ultimate, i);
    }
  }

  // ----- the sign-key interactor -----

  /** The prompts a signing session accepts in a state; the first of the listing also needs ids to list. */
  predicate Accepts(cfg: SignKey.Settings, state: nat, line: StatusLine) {
    if line.status.GetLine? then
      if line.args == "keyedit.prompt" then
        || state == START_STATE || SignKey.Listing(state) || state == SignKey.UIDS_LIST_SEPARATELY_DONE
        || state == SignKey.CONFIRM || (state == SignKey.UIDS_ANSWER_SIGN_ALL && cfg.userIDs != [])
      else if line.args == "sign_uid.expire" || line.args == "sign_uid.class" then
        state == SignKey.UIDS_ANSWER_SIGN_ALL || state == SignKey.UIDS_LIST_SEPARATELY_DONE || state == SignKey.CONFIRM
      else if line.args == "trustsign_prompt.trust_value" then
        state == SignKey.UIDS_LIST_SEPARATELY_DONE || state == SignKey.CONFIRM
      else if line.args == "trustsign_prompt.trust_depth" then state == SignKey.SET_TRUST_VALUE
      else if line.args == "trustsign_prompt.trust_regexp" then state == SignKey.SET_TRUST_DEPTH
      else line.args == "sign_uid.okay" && state == SignKey.SET_TRUST_REGEXP
    else if line.status.GetBool? then
      if line.args == "keyedit.sign_all.okay" then state == SignKey.COMMAND
      else if line.args == "sign_uid.okay" then
        || state == SignKey.COMMAND || state == SignKey.UIDS_ANSWER_SIGN_ALL || state == SignKey.SET_CHECK_LEVEL
        || state == SignKey.UIDS_LIST_SEPARATELY_DONE || state == SignKey.CONFIRM
      else if line.args == "sign_uid.local_promote_okay" then
        state == SignKey.UIDS_LIST_SEPARATELY_DONE || state == SignKey.CONFIRM
      else if line.args == "sign_uid.class" then state == SignKey.SET_EXPIRE
      else line.args == "keyedit.save.okay" && state == SignKey.QUIT
    else false
  }

  /** The answer each prompt draws. Only the command-line prompt asks for different things: the command, the
      number of the next id, or the end. */
  function AnswerTo(cfg: SignKey.Settings, s: Session, args: string): Option<string>
    requires s.cursor <= |cfg.userIDs|
  {
    if args == "sign_uid.class" then Some([('0' as int + cfg.checkLevel) as char])
    else if args == "sign_uid.expire" || args == "sign_uid.okay" || args == "sign_uid.local_promote_okay"
            || args == "keyedit.save.okay" then Some("Y")
    else if args == "keyedit.sign_all.okay" then Some(if cfg.userIDs == [] then "Y" else "N")
    else if args == "keyedit.prompt" then
      if s.state == SignKey.CONFIRM then Some("quit")
      else if SignKey.UIDS_ANSWER_SIGN_ALL <= s.state < SignKey.UIDS_LIST_SEPARATELY_DONE - 1
              && s.cursor < |cfg.userIDs| then
        Some(SignKey.Decimal(SignKey.Wanted(cfg.userIDs[s.cursor])))
      else Some(SignKey.Command(cfg.options))
    else None
  }

  /** Where each prompt leads. */
  function LeadsTo(cfg: SignKey.Settings, s: Session, args: string): nat {
    if args == "sign_uid.class" then SignKey.SET_CHECK_LEVEL
    else if args == "sign_uid.expire" then SignKey.SET_EXPIRE
    else if args == "sign_uid.okay" || args == "sign_uid.local_promote_okay" then SignKey.CONFIRM
    else if args == "keyedit.save.okay" then SignKey.SAVE
    else if args == "keyedit.sign_all.okay" then SignKey.UIDS_ANSWER_SIGN_ALL
    else if args == "trustsign_prompt.trust_value" then SignKey.SET_TRUST_VALUE
    else if args == "trustsign_prompt.trust_depth" then SignKey.SET_TRUST_DEPTH
    else if args == "trustsign_prompt.trust_regexp" then SignKey.SET_TRUST_REGEXP
    else if s.state == SignKey.CONFIRM then SignKey.QUIT
    else if s.state == START_STATE || s.state == SignKey.UIDS_LIST_SEPARATELY_DONE then SignKey.COMMAND
    else if SignKey.Listing(s.state) && s.cursor == |cfg.userIDs| then SignKey.UIDS_LIST_SEPARATELY_DONE
    else s.state + 1
  }

  lemma SigningTexts(args: string)
    ensures Classify(args) == KeyeditPrompt <==> args == "keyedit.prompt"
    ensures Classify(args) == KeyeditSaveOkay <==> args == "keyedit.save.okay"
    ensures Classify(args) == SignAllOkay <==> args == "keyedit.sign_all.okay"
    ensures Classify(args) == SignUidOkay <==> args == "sign_uid.okay"
    ensures Classify(args) == SignUidExpire <==> args == "sign_uid.expire"
    ensures Classify(args) == SignUidClass <==> args == "sign_uid.class"
    ensures Classify(args) == LocalPromoteOkay <==> args == "sign_uid.local_promote_okay"
    ensures Classify(args) == TrustValue <==> args == "trustsign_prompt.trust_value"
    ensures Classify(args) == TrustDepth <==> args == "trustsign_prompt.trust_depth"
    ensures Classify(args) == TrustRegexp <==> args == "trustsign_prompt.trust_regexp"
  {
    Texts(args);
  }

  lemma AcceptedNext(cfg: SignKey.Settings, s: Session, line: StatusLine)
    requires s.state != ERROR_STATE && Inquires(line.status) && Accepts(cfg, s.state, line)
    ensures SignKey.NextState(cfg, s.cursor, s.state, NoError, Ask(line.status, Classify(line.args)))
         == Next(LeadsTo(cfg, s, line.args), NoError)
  {
    SigningTexts(line.args);
  }

  lemma RefusedNext(cfg: SignKey.Settings, s: Session, line: StatusLine)
    requires s.state != ERROR_STATE && Inquires(line.status) && !Accepts(cfg, s.state, line)
    ensures SignKey.NextState(cfg, s.cursor, s.state, NoError, Ask(line.status, Classify(line.args)))
         == Next(ERROR_STATE, if s.state == SignKey.CONFIRM then NoError
                              else if s.state == SignKey.UIDS_ANSWER_SIGN_ALL
                                      && line == StatusLine(GetLine, "keyedit.prompt") then UnusablePubkey
                              else General)
  {
    SigningTexts(line.args);
  }

  lemma AcceptedStep(cfg: SignKey.Settings, s: Session, line: StatusLine)
    requires CursorOk(Sign(cfg), s) && s.error == NoError && !s.aborted && s.state != ERROR_STATE
    requires Inquires(line.status) && Accepts(cfg, s.state, line)
    ensures var r, next := Callback(Sign(cfg), s, Heard(line)), LeadsTo(cfg, s, line.args);
            r.aborted || (r.error == NoError && r.state == next && r.sent == s.sent + Reply(cfg, s, next, line.args))
  {
    AcceptedNext(cfg, s, line);
    var next := LeadsTo(cfg, s, line.args);
    if next != s.state {
      ActionAnswers(cfg, s, line);
    }
  }

  /** What is sent on the way to `next`: staying in a state draws no answer. */
  function Reply(cfg: SignKey.Settings, s: Session, next: nat, args: string): seq<Sent>
    requires s.cursor <= |cfg.userIDs|
  {
    if next == s.state then []
    else
      match AnswerTo(cfg, s, args)
      case None => []
      case Some(text) => [Sent(next, text, true)]
  }

  lemma ActionAnswers(cfg: SignKey.Settings, s: Session, line: StatusLine)
    requires s.cursor <= |cfg.userIDs| && s.state != ERROR_STATE
    requires Inquires(line.status) && Accepts(cfg, s.state, line) && LeadsTo(cfg, s, line.args) != s.state
    ensures var a := SignKey.Action(cfg, s.cursor, LeadsTo(cfg, s, line.args));
            || a == AssertionFailure
            || a == match AnswerTo(cfg, s, line.args) case None => NoReply case Some(text) => Act.Reply(text)
  {
  }

  lemma RefusedStep(cfg: SignKey.Settings, s: Session, line: StatusLine)
    requires CursorOk(Sign(cfg), s) && s.error == NoError && !s.aborted && s.state != ERROR_STATE
    requires Inquires(line.status) && !Accepts(cfg, s.state, line)
    ensures var noKeys := s.state == SignKey.UIDS_ANSWER_SIGN_ALL && line == StatusLine(GetLine, "keyedit.prompt");
            Callback(Sign(cfg), s, Heard(line)) == Fail(s, if noKeys then UnusablePubkey else General)
  {
    RefusedNext(cfg, s, line);
  }

  /** The protocol of the sign-key interactor: which prompts are accepted, where they lead and what they
      draw; anything else is an error. */
  lemma SignProtocol(cfg: SignKey.Settings, events: seq<Event>, line: StatusLine)
    requires var s := Run(Sign(cfg), events); s.error == NoError && !s.aborted
    requires Inquires(line.status)
    ensures var s, r := Run(Sign(cfg), events), Run(Sign(cfg), events + [Heard(line)]);
            if Accepts(cfg, s.state, line) then
              var next := LeadsTo(cfg, s, line.args);
              r.aborted || (r.error == NoError && r.state == next && r.sent == s.sent + Reply(cfg, s, next, line.args))
            else
              var noKeys := s.state == SignKey.UIDS_ANSWER_SIGN_ALL && line == StatusLine(GetLine, "keyedit.prompt");
              r == Fail(s, if noKeys then UnusablePubkey else General)
  {
    var s := Run(Sign(cfg), events);
    EditRuns.RunStep(Sign(cfg), INITIAL, events, Heard(line));
    EditRuns.DriverAgreement(Sign(cfg), events);
    if Accepts(cfg, s.state, line) {
      AcceptedStep(cfg, s, line);
    } else {
      RefusedStep(cfg, s, line);
    }
  }

  // ----- all four interactors -----

  /** Statuses that ask for nothing are ignored, except three that are errors, at any time. */
  lemma OtherStatuses(c: Config, events: seq<Event>, ev: Event)
    requires !Run(c, events).aborted && !Inquires(ev.ask.status)
    ensures var s, r := Run(c, events), Run(c, events + [ev]);
            r == match ev.ask.status
                 case MissingPassphrase => Fail(s, NoPassphrase)
                 case AlreadySignedStatus => Fail(s, AlreadySigned)
                 case SigExpiredStatus => Fail(s, SigExpired)
                 case _ => s
  {
    EditRuns.RunStep(c, INITIAL, events, ev);
  }

  /** With an error stored, gpg is still led out: the command-line prompt is taken for "quit" and the question
      to save is accepted, but nothing is sent. The error stays until a later one replaces it. */
  lemma LedOut(c: Config, events: seq<Event>, line: StatusLine)
    requires Run(c, events).error != NoError && !Run(c, events).aborted && Inquires(line.status)
    ensures var s, r := Run(c, events), Run(c, events + [Heard(line)]);
            if s.state == ERROR_STATE then
              r == if line == StatusLine(GetLine, "keyedit.prompt") then s.(state := EditRuns.Quit(c)) else s
            else if s.state == EditRuns.Quit(c) && line == StatusLine(GetBool, "keyedit.save.okay") then
              r == s.(state := EditRuns.Save(c))
            else r == Fail(s, General)
  {
    EditRuns.RunStep(c, INITIAL, events, Heard(line));
    EditRuns.DriverAgreement(c, events);
    LedOutStep(c, Run(c, events), line);
  }

  lemma LedOutStep(c: Config, s: Session, line: StatusLine)
    requires CursorOk(c, s) && EditRuns.Agreement(c, s) && s.error != NoError && !s.aborted && Inquires(line.status)
    ensures var r := Callback(c, s, Heard(line));
            if s.state == ERROR_STATE then
              r == if line == StatusLine(GetLine, "keyedit.prompt") then s.(state := EditRuns.Quit(c)) else s
            else if s.state == EditRuns.Quit(c) && line == StatusLine(GetBool, "keyedit.save.okay") then
              r == s.(state := EditRuns.Save(c))
            else r == Fail(s, General)
  {
    LedOutNext(c, s, line);
  }

  lemma LedOutNext(c: Config, s: Session, line: StatusLine)
    requires EditRuns.Agreement(c, s) && s.error != NoError && Inquires(line.status)
    ensures NextState(c, s, Ask(line.status, Classify(line.args)))
         == if s.state == ERROR_STATE then
              if line == StatusLine(GetLine, "keyedit.prompt") then Next(EditRuns.Quit(c), NoError)
              else Next(ERROR_STATE, s.error)
            else if s.state == EditRuns.Quit(c) && line == StatusLine(GetBool, "keyedit.save.okay") then
              Next(EditRuns.Save(c), NoError)
            else Next(ERROR_STATE, General)
  {
    EndTexts(line.args);
  }

  lemma EndTexts(args: string)
    ensures Classify(args) == KeyeditPrompt <==> args == "keyedit.prompt"
    ensures Classify(args) == KeyeditSaveOkay <==> args == "keyedit.save.okay"
  {
    Texts(args);
  }
}
