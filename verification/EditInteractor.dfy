/** The driver edit_interactor_callback_impl over the four interactors: a specification on values,
    and the class that carries it out. */
module EditInteractor {
  import opened Errors
  import opened Sequences
  import opened EditTypes
  import AddUserId
  import SetExpiryTime
  import SetOwnerTrust
  import SignKey
  import Descriptor

  /** Which interactor is plugged in, with its settings. */
  datatype Config =
    | AddUser(fields: AddUserId.Fields)
    | Expiry(date: string)
    | Trust(trust: SetOwnerTrust.OwnerTrust)
    | Sign(settings: SignKey.Settings)

  /** A reply line the driver tried to write, the state it answers for, and whether the line and
      its newline were both written. */
  datatype Sent = Sent(state: nat, line: string, complete: bool)

  datatype Session = Session(state: nat, error: Error, cursor: nat, sent: seq<Sent>, aborted: bool)

  /** One callback: what gpg reports, and the errno with which writing the text or the newline fails. */
  datatype Event = Event(ask: Ask, textError: Option<nat>, newlineError: Option<nat>)

  const INITIAL := Session(START_STATE, NoError, 0, [], false)

  predicate CursorOk(c: Config, s: Session) {
    c.Sign? ==> s.cursor <= |c.settings.userIDs|
  }

  function NextState(c: Config, s: Session, ask: Ask): Next {
    match c
    case AddUser(_) => AddUserId.NextState(s.state, s.error, ask)
    case Expiry(_) => SetExpiryTime.NextState(s.state, s.error, ask)
    case Trust(_) => SetOwnerTrust.NextState(s.state, s.error, ask)
    case Sign(settings) => SignKey.NextState(settings, s.cursor, s.state, s.error, ask)
  }

  function Action(c: Config, s: Session): Act
    requires CursorOk(c, s)
  {
    match c
    case AddUser(fields) => AddUserId.Action(fields, s.state)
    case Expiry(date) => SetExpiryTime.Action(date, s.state)
    case Trust(trust) => SetOwnerTrust.Action(trust, s.state)
    case Sign(settings) => SignKey.Action(settings, s.cursor, s.state)
  }

  function Fail(s: Session, err: Error): Session {
    s.(error := err, state := ERROR_STATE)
  }

  /** An empty text is not written, so only its newline can fail. */
  function WriteError(line: string, ev: Event): Option<nat> {
    if line != "" && ev.textError.Some? then ev.textError else ev.newlineError
  }

  /** The part of the driver that follows a successful state change. */
  function Perform(c: Config, s: Session, ev: Event): (r: Session)
    requires CursorOk(c, s)
    ensures CursorOk(c, r)
  {
    match Action(c, s)
    case Reply(line) =>
      var failure := WriteError(line, ev);
      var cursor := if c.Sign? && SignKey.Listing(s.state) then s.cursor + 1 else s.cursor;
      var replied := s.(cursor := cursor, sent := s.sent + [Sent(s.state, line, failure.None?)]);
      if failure.Some? then Fail(replied, SystemError(failure.value)) else replied
    case NoReply => s
    case ActionError(err) => Fail(s, err)
    case AssertionFailure => s.(aborted := true)
  }

  function Callback(c: Config, s: Session, ev: Event): (r: Session)
    requires CursorOk(c, s)
    ensures CursorOk(c, r)
  {
    var err := StatusToError(ev.ask);
    if s.aborted then s
    else if err.Holds() then Fail(s, err)
    else
      var next := NextState(c, s, ev.ask);
      if next.err.Holds() then Fail(s, next.err)
      else if next.state != s.state && s.error == NoError then Perform(c, s.(state := next.state), ev)
      else s.(state := next.state)
  }

  /** The session after a stream of callbacks, oldest first. */
  function RunFrom(c: Config, s: Session, events: seq<Event>): (r: Session)
    requires CursorOk(c, s)
    ensures CursorOk(c, r)
  {
    if events == [] then s
    else Callback(c, RunFrom(c, s, events[..|events| - 1]), events[|events| - 1])
  }

  function Run(c: Config, events: seq<Event>): (r: Session)
    ensures CursorOk(c, r)
  {
    RunFrom(c, INITIAL, events)
  }

  // ----- what a callback does to the descriptor -----

  /** What writing a reply does: the errnos of failing writes, the bytes written, the schedule left. */
  datatype Exchange = Exchange(textError: Option<nat>, newlineError: Option<nat>, bytes: string, rest: seq<int>)

  function Errno(result: int): Option<nat> {
    if result < 0 then Some(-result) else None
  }

  /** The text, and after it, unless that failed, the newline. */
  function Exchanged(line: string, schedule: seq<int>): Exchange {
    var text := Descriptor.SendAll(line, |line|, schedule);
    var newline := Descriptor.SendAll("\n", 1, text.rest);
    if text.result < 0 then Exchange(Errno(text.result), None, text.bytes, text.rest)
    else Exchange(None, Errno(newline.result), text.bytes + newline.bytes, newline.rest)
  }

  /** The line the driver answers a status with, if it answers at all. */
  function ReplyLine(c: Config, s: Session, ask: Ask): Option<string>
    requires CursorOk(c, s)
  {
    var r := Callback(c, s, Event(ask, None, None));
    if |r.sent| > |s.sent| then Some(r.sent[|s.sent|].line) else None
  }

  function LineOf(a: Act): Option<string> {
    if a.Reply? then Some(a.line) else None
  }

  /** Where a state change leads to an action, the driver answers with that action's line. */
  lemma ReplyIsActions(c: Config, s: Session, ask: Ask)
    requires CursorOk(c, s) && !s.aborted && s.error == NoError && !StatusToError(ask).Holds()
    requires var next := NextState(c, s, ask); !next.err.Holds() && next.state != s.state
    ensures ReplyLine(c, s, ask) == LineOf(Action(c, s.(state := NextState(c, s, ask).state)))
  {
  }

  function Traffic(reply: Option<string>, schedule: seq<int>): Exchange {
    match reply
    case None => Exchange(None, None, "", schedule)
    case Some(line) => Exchanged(line, schedule)
  }

  function EventOf(ask: Ask, x: Exchange): Event {
    Event(ask, x.textError, x.newlineError)
  }

  /** Without failing writes nothing fails, and as many bytes as the line and its newline have are
      written; over whole writes these bytes are the line and the newline. */
  lemma ExchangeSucceeds(line: string, schedule: seq<int>)
    ensures var x := Exchanged(line, schedule);
            && (Descriptor.NoFailure(schedule) ==>
                  && x.textError.None? && x.newlineError.None? && |x.bytes| == |line| + 1
                  && Descriptor.NoFailure(x.rest))
            && (schedule == [] ==> x == Exchange(None, None, line + "\n", []))
  {
    var rest := Descriptor.SendAll(line, |line|, schedule).rest;
    Descriptor.SendAllSucceeds(line, |line|, schedule);
    Descriptor.SendAllSucceeds("\n", 1, rest);
    if schedule == [] {
      Descriptor.WholeWrite(line);
      Descriptor.WholeWrite("\n");
    }
  }

  /** Where a reply failed: at the first write of its text and newline that failed. */
  lemma ErrnoIsFirst(line: string, schedule: seq<int>)
    ensures var x := Exchanged(line, schedule);
            && (x.textError.Some? ==>
                  Descriptor.FailedFirst(schedule, 0 - x.textError.value, x.rest) && x.newlineError.None?)
            && (x.newlineError.Some? ==> Descriptor.FailedFirst(schedule, 0 - x.newlineError.value, x.rest))
  {
    var text := Descriptor.SendAll(line, |line|, schedule);
    var newline := Descriptor.SendAll("\n", 1, text.rest);
    Descriptor.SendAllSucceeds(line, |line|, schedule);
    if text.result < 0 {
      Descriptor.SendAllErrno(line, |line|, schedule);
    } else if newline.result < 0 {
      Descriptor.SucceedsIff(line, |line|, schedule);
      Descriptor.SendAllErrno("\n", 1, text.rest);
      FailedBehind(Descriptor.Used(line, |line|, schedule), text.rest, newline.result, newline.rest);
    }
  }

  lemma FailedBehind(front: seq<int>, schedule: seq<int>, result: int, rest: seq<int>)
    requires Descriptor.NoFailure(front) && Descriptor.FailedFirst(schedule, result, rest)
    ensures Descriptor.FailedFirst(front + schedule, result, rest)
  {
    var all, k := front + schedule, |schedule| - |rest| - 1;
    assert all[..|front| + k] == front + schedule[..k];
    assert all[|front| + k + 1..] == schedule[k + 1..];
  }

  /** The error stored for a reply that could not be written is the errno of the first write that failed. */
  lemma StoredErrno(c: Config, s: Session, ask: Ask, schedule: seq<int>)
    requires CursorOk(c, s) && s.error == NoError && ReplyLine(c, s, ask).Some?
    ensures var x := Traffic(ReplyLine(c, s, ask), schedule);
            var err := Callback(c, s, EventOf(ask, x)).error;
            if x.textError.None? && x.newlineError.None? then err == NoError
            else err.SystemError? && Descriptor.FailedFirst(schedule, 0 - err.errno, x.rest)
  {
    var line := ReplyLine(c, s, ask).value;
    ErrnoIsFirst(line, schedule);
    EmptyText(schedule);
  }

  lemma EmptyText(schedule: seq<int>)
    ensures Exchanged("", schedule).textError.None?
  {
  }

  // ----- the driver -----

  /** The object behind the virtual functions. */
  datatype Interactor =
    | AddUserObject(o: AddUserId.Interactor)
    | ExpiryObject(date: string)
    | TrustObject(trust: SetOwnerTrust.OwnerTrust)
    | SignObject(d: SignKey.Private)

  /** EditInteractor::Private. */
  class Driver {
    var state: nat
    var error: Error
    var aborted: bool
    const q: Interactor
    ghost var sent: seq<Sent>

    /** The object behind the virtual functions, if it has state of its own. */
    ghost function Parts(): set<object> {
      match q
      case AddUserObject(o) => {o}
      case SignObject(d) => {d}
      case _ => {}
    }

    ghost predicate Valid()
      reads this, Parts()
    {
      q.SignObject? ==> q.d.Valid()
    }

    ghost function Configuration(): Config
      reads Parts()
    {
      match q
      case AddUserObject(o) => AddUser(o.Set())
      case ExpiryObject(date) => Expiry(date)
      case TrustObject(trust) => Trust(trust)
      case SignObject(d) => Sign(d.Set())
    }

    ghost function View(): (s: Session)
      reads this, Parts()
      requires Valid()
      ensures CursorOk(Configuration(), s)
    {
      Session(state, error, if q.SignObject? then q.d.nextId else 0, sent, aborted)
    }

    constructor (q: Interactor)
      requires q.SignObject? ==> q.d.Valid() && q.d.nextId == 0
      ensures this.q == q && Valid() && View() == INITIAL
    {
      this.q := q;
      state, error, aborted, sent := START_STATE, NoError, false, [];
    }

    method DoNextState(ask: Ask) returns (next: Next)
      requires Valid()
      modifies Parts()
      ensures Valid() && View() == old(View()) && Configuration() == old(Configuration())
      ensures next == NextState(Configuration(), View(), ask)
    {
      match q {
        case AddUserObject(_) => next := AddUserId.NextState(state, error, ask);
        case ExpiryObject(_) => next := SetExpiryTime.NextState(state, error, ask);
        case TrustObject(_) => next := SetOwnerTrust.NextState(state, error, ask);
        case SignObject(d) => next := d.DoNextState(state, error, ask);
      }
    }

    method DoAction() returns (a: Act)
      requires Valid()
      modifies Parts()
      ensures Valid() && Configuration() == old(Configuration())
      ensures a == old(Action(Configuration(), View()))
      ensures View().cursor == if q.SignObject? && SignKey.Listing(state) && a.Reply?
                               then old(View()).cursor + 1 else old(View()).cursor
    {
      match q {
        case AddUserObject(o) => a := AddUserId.Action(o.Set(), state);
        case ExpiryObject(date) => a := SetExpiryTime.Action(date, state);
        case TrustObject(trust) => a := SetOwnerTrust.Action(trust, state);
        case SignObject(d) => a := d.DoAction(state);
      }
    }

    /** Writes the reply, unless it is empty, and its newline; the error is that of the failing write. */
    method WriteReply(line: string, fd: Descriptor.Fd) returns (err: Error)
      modifies fd
      ensures var x := Exchanged(line, old(fd.schedule));
              && fd.wire == old(fd.wire) + x.bytes && fd.schedule == x.rest
              && err == (if x.textError.Some? then SystemError(x.textError.value)
                         else if x.newlineError.Some? then SystemError(x.newlineError.value)
                         else NoError)
    {
      ghost var schedule := fd.schedule;
      ghost var text := Descriptor.SendAll(line, |line|, schedule);
      Descriptor.SendAllSucceeds(line, |line|, schedule);
      Descriptor.SendAllSucceeds("\n", 1, text.rest);
      if |line| > 0 {
        var n := fd.WriteAll(line);
        if n != |line| {
          return SystemError(-n);
        }
      }
      assert fd.wire == old(fd.wire) + text.bytes && fd.schedule == text.rest;
      var n := fd.WriteAll("\n");
      Associate(old(fd.wire), text.bytes, Descriptor.SendAll("\n", 1, text.rest).bytes);
      err := if n != 1 then SystemError(-n) else NoError;
    }

    /** Calls `action` and writes its reply. What is left of Perform is recording the error. */
    method Respond(ask: Ask, fd: Descriptor.Fd) returns (err: Error)
      requires Valid()
      modifies this`sent, this`aborted, fd, Parts()
      ensures Valid() && Configuration() == old(Configuration())
      ensures var x := Traffic(LineOf(old(Action(Configuration(), View()))), old(fd.schedule));
              && (if err.Holds() then Fail(View(), err) else View())
                 == Perform(Configuration(), old(View()), EventOf(ask, x))
              && fd.wire == old(fd.wire) + x.bytes && fd.schedule == x.rest
    {
      err := NoError;
      var a := DoAction();
      match a {
        case Reply(line) =>
          err := WriteReply(line, fd);
          sent := sent + [Sent(state, line, err == NoError)];
        case NoReply =>
        case ActionError(e) => err := e;
        case AssertionFailure => aborted := true;
      }
    }

    /** edit_interactor_callback_impl: the session moves as Callback says for exactly the write errors that
        the descriptor produces, and exactly the bytes of the reply, as far as they could be written,
        reach the descriptor. */
    method DoCallback(status: Status, args: string, fd: Descriptor.Fd) returns (result: Error)
      requires Valid()
      modifies this, fd, Parts()
      ensures Valid() && Configuration() == old(Configuration())
      ensures var ask := Ask(status, Classify(args));
              var x := Traffic(old(ReplyLine(Configuration(), View(), ask)), old(fd.schedule));
              && View() == Callback(Configuration(), old(View()), EventOf(ask, x))
              && fd.wire == old(fd.wire) + x.bytes && fd.schedule == x.rest
      ensures result == error
    {
      var ask := Ask(status, Classify(args));
      if aborted {
        return error;
      }
      var err := StatusToError(ask);
      if !err.Holds() {
        // advance to next state based on input
        var oldState := state;
        var next := DoNextState(ask);
        state := next.state;
        err := next.err;
        if err.Holds() {
          state := oldState;
        } else if state != oldState && error == NoError {
          // successful state change -> call action
          ReplyIsActions(Configuration(), old(View()), ask);
          err := Respond(ask, fd);
        }
      }
      if err.Holds() {
        error := err;
        state := ERROR_STATE;
      }
      result := error;
    }
  }
}
