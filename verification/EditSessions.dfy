/** Whole sessions of a driver object, down to the bytes it writes over any descriptor. */
module EditSessions {
  import opened Errors
  import opened Sequences
  import opened EditTypes
  import opened EditInteractor
  import EditRuns
  import SignKeyRuns
  import Descriptor

  // ----- sessions over a descriptor, on values -----

  /** A session, what it has written, and what the descriptor will still do. */
  datatype Link = Link(session: Session, wire: string, schedule: seq<int>)

  function Start(schedule: seq<int>): Link {
    Link(INITIAL, "", schedule)
  }

  function Reaction(c: Config, l: Link, ask: Ask): Exchange
    requires CursorOk(c, l.session)
  {
    Traffic(ReplyLine(c, l.session, ask), l.schedule)
  }

  function Answer(c: Config, l: Link, ask: Ask): (r: Link)
    requires CursorOk(c, l.session)
    ensures CursorOk(c, r.session)
  {
    var x := Reaction(c, l, ask);
    Link(Callback(c, l.session, EventOf(ask, x)), l.wire + x.bytes, x.rest)
  }

  /** What a stream of statuses leaves behind, oldest first. */
  function Converse(c: Config, l: Link, asks: seq<Ask>): (r: Link)
    requires CursorOk(c, l.session)
    ensures CursorOk(c, r.session)
  {
    if asks == [] then l
    else Answer(c, Converse(c, l, asks[..|asks| - 1]), asks[|asks| - 1])
  }

  /** The events of a conversation: its statuses with the write errors that the descriptor produced. */
  function Events(c: Config, l: Link, asks: seq<Ask>): (events: seq<Event>)
    requires CursorOk(c, l.session)
    ensures |events| == |asks|
  {
    if asks == [] then []
    else
      var front, last := asks[..|asks| - 1], asks[|asks| - 1];
      Events(c, l, front) + [EventOf(last, Reaction(c, Converse(c, l, front), last))]
  }

  lemma ConverseSnoc(c: Config, l: Link, asks: seq<Ask>, ask: Ask)
    requires CursorOk(c, l.session)
    ensures Converse(c, l, asks + [ask]) == Answer(c, Converse(c, l, asks), ask)
  {
    assert (asks + [ask])[..|asks|] == asks;
  }

  /** A conversation is a run of the value model, so all that holds of runs holds of it. */
  lemma {:induction false} ConverseIsRun(c: Config, l: Link, asks: seq<Ask>)
    requires CursorOk(c, l.session)
    ensures Converse(c, l, asks).session == RunFrom(c, l.session, Events(c, l, asks))
  {
    if asks != [] {
      var front, last := asks[..|asks| - 1], asks[|asks| - 1];
      ConverseIsRun(c, l, front);
      var ev := EventOf(last, Reaction(c, Converse(c, l, front), last));
      EditRuns.RunStep(c, l.session, Events(c, l, front), ev);
    }
  }

  lemma {:induction false} EventsAsk(c: Config, l: Link, asks: seq<Ask>, i: nat)
    requires CursorOk(c, l.session) && i < |asks|
    ensures Events(c, l, asks)[i].ask == asks[i]
  {
    if i < |asks| - 1 {
      EventsAsk(c, l, asks[..|asks| - 1], i);
    }
  }

  lemma ReactionSucceeds(c: Config, l: Link, ask: Ask)
    requires CursorOk(c, l.session) && Descriptor.NoFailure(l.schedule)
    ensures EditRuns.WritesSucceed(EventOf(ask, Reaction(c, l, ask)))
    ensures Descriptor.NoFailure(Reaction(c, l, ask).rest)
  {
    var reply := ReplyLine(c, l.session, ask);
    if reply.Some? {
      ExchangeSucceeds(reply.value, l.schedule);
    }
  }

  /** If no write fails, the events of the run carry no write error. */
  lemma {:induction false} ConverseSucceeds(c: Config, l: Link, asks: seq<Ask>)
    requires CursorOk(c, l.session) && Descriptor.NoFailure(l.schedule)
    ensures forall i :: 0 <= i < |asks| ==> EditRuns.WritesSucceed(Events(c, l, asks)[i])
    ensures Descriptor.NoFailure(Converse(c, l, asks).schedule)
  {
    if asks != [] {
      var front, last := asks[..|asks| - 1], asks[|asks| - 1];
      ConverseSucceeds(c, l, front);
      ReactionSucceeds(c, Converse(c, l, front), last);
    }
  }

  // ----- what arrives -----

  /** The bytes of a list of lines. */
  function Joined(lines: seq<string>): string {
    if lines == [] then "" else Joined(lines[..|lines| - 1]) + lines[|lines| - 1] + "\n"
  }

  lemma JoinedSnoc(lines: seq<string>, line: string)
    ensures Joined(lines + [line]) == Joined(lines) + line + "\n"
  {
    assert (lines + [line])[..|lines|] == lines;
  }

  function Sendable(s: Session): string {
    Joined(EditRuns.Lines(s.sent))
  }

  /** Which lines are attempted does not depend on write errors. */
  lemma SentIsReply(c: Config, s: Session, ev: Event)
    requires CursorOk(c, s)
    ensures EditRuns.Lines(Callback(c, s, ev).sent)
         == EditRuns.Lines(s.sent) + match ReplyLine(c, s, ev.ask) case None => [] case Some(line) => [line]
  {
    var r := Callback(c, s, ev);
    if r.sent != s.sent {
      EditRuns.LinesSnoc(s.sent, r.sent[|s.sent|]);
    }
  }

  /** As many bytes were written as the lines have, and if writes are whole from the start, exactly the
      lines were. */
  predicate Arrived(whole: bool, l: Link) {
    && |l.wire| == |Sendable(l.session)|
    && (whole ==> l.schedule == [] && l.wire == Sendable(l.session))
  }

  lemma ExchangeArrives(wire: string, lines: seq<string>, line: string, schedule: seq<int>)
    requires |wire| == |Joined(lines)| && Descriptor.NoFailure(schedule)
    ensures |wire + Exchanged(line, schedule).bytes| == |Joined(lines + [line])|
    ensures schedule == [] && wire == Joined(lines) ==>
              wire + Exchanged(line, schedule).bytes == Joined(lines + [line]) && Exchanged(line, schedule).rest == []
  {
    ExchangeSucceeds(line, schedule);
    JoinedSnoc(lines, line);
    Associate(wire, line, "\n");
  }

  lemma AnswerArrives(c: Config, whole: bool, l: Link, ask: Ask)
    requires CursorOk(c, l.session) && Arrived(whole, l) && Descriptor.NoFailure(l.schedule)
    ensures Arrived(whole, Answer(c, l, ask))
  {
    var reply := ReplyLine(c, l.session, ask);
    var lines := EditRuns.Lines(l.session.sent);
    SentIsReply(c, l.session, EventOf(ask, Reaction(c, l, ask)));
    if reply.Some? {
      ExchangeArrives(l.wire, lines, reply.value, l.schedule);
    } else {
      assert lines + [] == lines && l.wire + "" == l.wire;
    }
  }

  /** Whatever gpg asks and however writes are cut: without failing writes as many bytes are written as the
      lines of the session have, and over whole writes exactly these lines are written. */
  lemma {:induction false} WireIsLines(c: Config, schedule: seq<int>, asks: seq<Ask>)
    requires Descriptor.NoFailure(schedule)
    ensures Arrived(schedule == [], Converse(c, Start(schedule), asks))
  {
    if asks != [] {
      var front := asks[..|asks| - 1];
      WireIsLines(c, schedule, front);
      ConverseSucceeds(c, Start(schedule), front);
      AnswerArrives(c, schedule == [], Converse(c, Start(schedule), front), asks[|asks| - 1]);
    }
  }

  // ----- which sessions survive short writes -----

  /** However writes are cut, as long as none fails, the bytes written are the lines of the session. */
  ghost predicate WireExact(c: Config, asks: seq<Ask>) {
    forall schedule :: Descriptor.NoFailure(schedule) ==>
      Converse(c, Start(schedule), asks).wire == Sendable(Converse(c, Start(schedule), asks).session)
  }

  predicate AllUniform(lines: seq<string>) {
    forall i :: 0 <= i < |lines| ==> Descriptor.Uniform(lines[i])
  }

  /** What is sent in a session does not depend on how writes are cut. */
  function LinesFor(c: Config, asks: seq<Ask>): seq<string> {
    EditRuns.Lines(Converse(c, Start([]), asks).session.sent)
  }

  lemma {:induction false} SameSession(c: Config, schedule: seq<int>, asks: seq<Ask>)
    requires Descriptor.NoFailure(schedule)
    ensures Converse(c, Start(schedule), asks).session == Converse(c, Start([]), asks).session
  {
    if asks != [] {
      var front, last := asks[..|asks| - 1], asks[|asks| - 1];
      SameSession(c, schedule, front);
      ConverseSucceeds(c, Start(schedule), front);
      ConverseSucceeds(c, Start([]), front);
      ReactionSucceeds(c, Converse(c, Start(schedule), front), last);
      ReactionSucceeds(c, Converse(c, Start([]), front), last);
    }
  }

  lemma UniformExchange(line: string, schedule: seq<int>)
    requires Descriptor.NoFailure(schedule) && Descriptor.Uniform(line)
    ensures Exchanged(line, schedule).bytes == line + "\n"
  {
    var text := Descriptor.SendAll(line, |line|, schedule);
    Descriptor.SendAllSucceeds(line, |line|, schedule);
    Descriptor.SendAllSucceeds("\n", 1, text.rest);
    Descriptor.SendAllOfUniform(line, |line|, schedule);
    Descriptor.SendAllOfUniform("\n", 1, text.rest);
    assert line[..|line|] == line && "\n"[..1] == "\n";
  }

  /** The line that the last status of a conversation draws, if any. */
  lemma LinesForSnoc(c: Config, front: seq<Ask>, last: Ask) returns (reply: Option<string>)
    ensures reply == ReplyLine(c, Converse(c, Start([]), front).session, last)
    ensures LinesFor(c, front + [last]) == LinesFor(c, front) + match reply case None => [] case Some(line) => [line]
  {
    var l := Converse(c, Start([]), front);
    reply := ReplyLine(c, l.session, last);
    ConverseSnoc(c, Start([]), front, last);
    SentIsReply(c, l.session, EventOf(last, Reaction(c, l, last)));
  }

  /** What one more status adds to the wire. */
  lemma WireSnoc(c: Config, schedule: seq<int>, front: seq<Ask>, last: Ask)
    requires Descriptor.NoFailure(schedule)
    ensures var l := Converse(c, Start(schedule), front);
            var reply := ReplyLine(c, Converse(c, Start([]), front).session, last);
            && Converse(c, Start(schedule), front + [last]).wire == l.wire + Traffic(reply, l.schedule).bytes
            && Converse(c, Start(schedule), front + [last]).schedule == Traffic(reply, l.schedule).rest
  {
    SameSession(c, schedule, front);
    ConverseSnoc(c, Start(schedule), front, last);
  }

  lemma UniformStep(lines: seq<string>, reply: Option<string>, schedule: seq<int>)
    requires Descriptor.NoFailure(schedule) && (reply.Some? ==> Descriptor.Uniform(reply.value))
    ensures Joined(lines) + Traffic(reply, schedule).bytes
         == Joined(lines + match reply case None => [] case Some(line) => [line])
  {
    if reply.Some? {
      UniformExchange(reply.value, schedule);
      JoinedSnoc(lines, reply.value);
      Associate(Joined(lines), reply.value, "\n");
    } else {
      assert lines + [] == lines;
    }
  }

  lemma UniformParts(lines: seq<string>, more: seq<string>)
    requires AllUniform(lines + more)
    ensures AllUniform(lines) && AllUniform(more)
  {
    assert forall i :: 0 <= i < |lines| ==> lines[i] == (lines + more)[i];
    assert forall i :: 0 <= i < |more| ==> more[i] == (lines + more)[|lines| + i];
  }

  lemma {:induction false} UniformWire(c: Config, schedule: seq<int>, asks: seq<Ask>)
    requires Descriptor.NoFailure(schedule) && AllUniform(LinesFor(c, asks))
    ensures Converse(c, Start(schedule), asks).wire == Joined(LinesFor(c, asks))
  {
    if asks != [] {
      var front, last := asks[..|asks| - 1], asks[|asks| - 1];
      assert asks == front + [last];
      var reply := LinesForSnoc(c, front, last);
      var lines := LinesFor(c, front);
      var more := match reply case None => [] case Some(line) => [line];
      UniformParts(lines, more);
      assert reply.Some? ==> more[0] == reply.value;
      UniformWire(c, schedule, front);
      ConverseSucceeds(c, Start(schedule), front);
      WireSnoc(c, schedule, front, last);
      UniformStep(lines, reply, Converse(c, Start(schedule), front).schedule);
    }
  }

  /** Schedule entries that let a line and its newline pass whole. */
  function Whole(reply: Option<string>): (schedule: seq<int>)
    ensures Descriptor.NoFailure(schedule)
  {
    match reply
    case None => []
    case Some(line) => if line == "" then [1] else [|line|, 1]
  }

  lemma WholeLeaves(line: string, tail: seq<int>)
    ensures Exchanged(line, Whole(Some(line)) + tail).rest == tail
  {
    var schedule := Whole(Some(line)) + tail;
    assert Descriptor.Rest([1] + tail) == tail;
    assert Descriptor.SendAll("\n", 0, tail).rest == tail;
    if line != "" {
      assert Descriptor.Rest(schedule) == [1] + tail;
      assert Descriptor.SendAll(line, 0, [1] + tail).rest == [1] + tail;
    }
  }

  /** Some schedule of whole writes leaves exactly `tail` after the conversation. */
  lemma {:induction false} WholeThen(c: Config, asks: seq<Ask>, tail: seq<int>) returns (schedule: seq<int>)
    requires Descriptor.NoFailure(tail)
    ensures Descriptor.NoFailure(schedule) && Converse(c, Start(schedule), asks).schedule == tail
  {
    schedule := tail;
    if asks != [] {
      var front, last := asks[..|asks| - 1], asks[|asks| - 1];
      var reply := LinesForSnoc(c, front, last);
      schedule := WholeThen(c, front, Whole(reply) + tail);
      WireSnoc(c, schedule, front, last);
      assert asks == front + [last];
      if reply.Some? {
        WholeLeaves(reply.value, tail);
      } else {
        assert [] + tail == tail;
      }
    }
  }

  lemma TooShort(line: string)
    requires !Descriptor.Uniform(line)
    ensures Exchanged(line, [1]).bytes != line + "\n"
  {
    Descriptor.OneByteFirst(line);
    Descriptor.WholeWrite("\n");
    var bytes := Descriptor.SendAll(line, |line|, [1]).bytes;
    assert (bytes + "\n")[..|line|] == bytes && (line + "\n")[..|line|] == line;
  }

  /** A line that is not uniform arrives wrong under some schedule, and so does all that follows. */
  lemma {:induction false} WrongWire(c: Config, asks: seq<Ask>) returns (schedule: seq<int>)
    requires !AllUniform(LinesFor(c, asks))
    ensures Descriptor.NoFailure(schedule) && Converse(c, Start(schedule), asks).wire != Joined(LinesFor(c, asks))
  {
    var front, last := asks[..|asks| - 1], asks[|asks| - 1];
    assert asks == front + [last];
    var reply := LinesForSnoc(c, front, last);
    var lines := LinesFor(c, front);
    if AllUniform(lines) {
      schedule := WholeThen(c, front, [1]);
      UniformWire(c, schedule, front);
      TooShort(reply.value);
    } else {
      schedule := WrongWire(c, front);
      WireIsLines(c, schedule, front);
      SameSession(c, schedule, front);
      ConverseSucceeds(c, Start(schedule), front);
    }
    WireSnoc(c, schedule, front, last);
    var l := Converse(c, Start(schedule), front);
    if reply.Some? {
      JoinedSnoc(lines, reply.value);
      Associate(Joined(lines), reply.value, "\n");
      Apart(l.wire, Traffic(reply, l.schedule).bytes, Joined(lines), reply.value + "\n");
    } else {
      assert l.wire + "" == l.wire && lines + [] == lines;
    }
  }

  lemma Apart(a: string, b: string, c: string, d: string)
    requires |a| == |c| && (a != c || b != d)
    ensures a + b != c + d
  {
    assert (a + b)[..|a|] == a && (c + d)[..|a|] == c;
    assert (a + b)[|a|..] == b && (c + d)[|a|..] == d;
  }

  /** The lines of a conversation arrive under every schedule of short writes if and only if all bytes of
      each single line are equal. */
  lemma WireExactIffUniform(c: Config, asks: seq<Ask>)
    ensures WireExact(c, asks) <==> AllUniform(LinesFor(c, asks))
  {
    forall schedule | Descriptor.NoFailure(schedule)
      ensures Sendable(Converse(c, Start(schedule), asks).session) == Joined(LinesFor(c, asks))
    {
      SameSession(c, schedule, asks);
    }
    if AllUniform(LinesFor(c, asks)) {
      forall schedule | Descriptor.NoFailure(schedule)
        ensures Converse(c, Start(schedule), asks).wire == Joined(LinesFor(c, asks))
      {
        UniformWire(c, schedule, asks);
      }
    } else {
      var schedule := WrongWire(c, asks);
      assert Descriptor.NoFailure(schedule);
    }
  }

  // ----- quiet and answered -----

  lemma QuietAnswer(c: Config, l: Link, ask: Ask)
    requires CursorOk(c, l.session) && l.session.error.Holds()
    ensures var r := Answer(c, l, ask);
            r.session.error.Holds() && r.wire == l.wire && r.schedule == l.schedule
  {
    EditRuns.QuietStep(c, l.session, Event(ask, None, None));
    EditRuns.QuietStep(c, l.session, EventOf(ask, Reaction(c, l, ask)));
  }

  /** Once an error is stored nothing is written any more. */
  lemma {:induction false} QuietWire(c: Config, l: Link, asks: seq<Ask>)
    requires CursorOk(c, l.session) && l.session.error.Holds()
    ensures var r := Converse(c, l, asks);
            r.session.error.Holds() && r.wire == l.wire && r.schedule == l.schedule
  {
    if asks != [] {
      var front, last := asks[..|asks| - 1], asks[|asks| - 1];
      QuietWire(c, l, front);
      QuietAnswer(c, Converse(c, l, front), last);
    }
  }

  /** Over a descriptor whose writes do not fail, however short they are, every interactor answers every
      status that needs a response with one complete line or an error, but for the silent moves of the
      sign-key interactor; any other status changes nothing unless it is itself an error. */
  lemma EveryAskAnswered(c: Config, schedule: seq<int>, asks: seq<Ask>, ask: Ask)
    requires Descriptor.NoFailure(schedule)
    ensures var s, r := Converse(c, Start(schedule), asks).session, Converse(c, Start(schedule), asks + [ask]).session;
            var ev := Event(ask, None, None);
            s.error == NoError && !s.aborted ==>
              || EditRuns.Answered(s, ev, r)
              || (c.Sign? && !NeedsNoResponse(ask) && SignKeyRuns.Unanswered(s, ev, r))
  {
    var events := Events(c, Start(schedule), asks + [ask]);
    var front, ev := events[..|asks|], events[|asks|];
    ConverseIsRun(c, Start(schedule), asks + [ask]);
    ConverseSucceeds(c, Start(schedule), asks + [ask]);
    ConverseIsRun(c, Start(schedule), asks);
    assert (asks + [ask])[..|asks|] == asks;
    assert front == Events(c, Start(schedule), asks) && events == front + [ev];
    EventsAsk(c, Start(schedule), asks + [ask], |asks|);
    var s := Run(c, front);
    if s.error == NoError && !s.aborted {
      if c.Sign? {
        SignKeyRuns.SignResponsive(c.settings, front, ev);
      } else {
        EditRuns.LinearResponsive(c, front, ev);
      }
    }
  }

  /** The bytes of a prefix of the interactor's script. */
  ghost predicate ScriptPrefix(c: Config, wire: string)
    requires !c.Sign?
  {
    exists ultimate: bool, k: nat ::
      k <= |EditRuns.Script(c, ultimate)| && wire == Joined(EditRuns.Script(c, ultimate)[..k])
  }

  lemma PrefixWire(c: Config, lines: seq<string>, ultimate: bool)
    requires !c.Sign? && lines <= EditRuns.Script(c, ultimate)
    ensures ScriptPrefix(c, Joined(lines))
  {
    assert lines == EditRuns.Script(c, ultimate)[..|lines|];
  }

  /** Whatever gpg asks, over whole writes a linear interactor writes the bytes of a prefix of its script. */
  lemma LinearWire(c: Config, asks: seq<Ask>)
    requires !c.Sign?
    ensures ScriptPrefix(c, Converse(c, Start([]), asks).wire)
  {
    var r := Converse(c, Start([]), asks);
    WireIsLines(c, [], asks);
    ConverseIsRun(c, Start([]), asks);
    EditRuns.LinearTranscript(c, Events(c, Start([]), asks));
    var lines := EditRuns.Lines(r.session.sent);
    var ultimate :| lines <= EditRuns.Script(c, ultimate);
    PrefixWire(c, lines, ultimate);
  }

  // ----- the object -----

  /** One status line as gpg sends it. */
  datatype StatusLine = StatusLine(status: Status, args: string)

  function Asks(stream: seq<StatusLine>): (asks: seq<Ask>)
    ensures |asks| == |stream|
  {
    seq(|stream|, i requires 0 <= i < |stream| => Ask(stream[i].status, Classify(stream[i].args)))
  }

  lemma AsksSnoc(stream: seq<StatusLine>, i: nat)
    requires i < |stream|
    ensures Asks(stream[..i + 1]) == Asks(stream[..i]) + [Ask(stream[i].status, Classify(stream[i].args))]
  {
  }

  ghost predicate InStep(d: Driver, l: Link, fd: Descriptor.Fd)
    reads d, d.Parts(), fd
  {
    d.Valid() && d.View() == l.session && fd.wire == l.wire && fd.schedule == l.schedule
  }

  method PlayOne(d: Driver, line: StatusLine, fd: Descriptor.Fd, ghost c: Config, ghost l: Link)
    requires InStep(d, l, fd) && d.Configuration() == c && CursorOk(c, l.session)
    modifies d, fd, d.Parts()
    ensures InStep(d, Answer(c, l, Ask(line.status, Classify(line.args))), fd) && d.Configuration() == c
  {
    var _ := d.DoCallback(line.status, line.args, fd);
  }

  /** Over every stream of status lines and every descriptor, the object and the descriptor end up as the
      conversation says. */
  method Play(d: Driver, stream: seq<StatusLine>, fd: Descriptor.Fd, ghost c: Config, ghost l: Link)
    requires InStep(d, l, fd) && d.Configuration() == c && CursorOk(c, l.session)
    modifies d, fd, d.Parts()
    ensures InStep(d, Converse(c, l, Asks(stream)), fd) && d.Configuration() == c
  {
    ghost var now := l;
    for i := 0 to |stream|
      invariant InStep(d, now, fd) && d.Configuration() == c && CursorOk(c, now.session)
      invariant now == Converse(c, l, Asks(stream[..i]))
    {
      ghost var ask := Ask(stream[i].status, Classify(stream[i].args));
      PlayOne(d, stream[i], fd, c, now);
      AsksSnoc(stream, i);
      ConverseSnoc(c, l, Asks(stream[..i]), ask);
      now := Answer(c, now, ask);
    }
    assert stream[..|stream|] == stream;
  }

  /** A new driver over a new descriptor that takes whole writes: whatever gpg asks, a linear interactor
      writes the bytes of a prefix of its script. */
  method PlayLinear(q: Interactor, stream: seq<StatusLine>) returns (d: Driver, fd: Descriptor.Fd)
    requires !q.SignObject?
    modifies if q.AddUserObject? then {q.o} else {}
    ensures d.Valid() && d.q == q && !d.Configuration().Sign?
    ensures fd.wire == Converse(d.Configuration(), Start([]), Asks(stream)).wire
    ensures ScriptPrefix(d.Configuration(), fd.wire)
  {
    d := new Driver(q);
    fd := new Descriptor.Fd([]);
    ghost var c := d.Configuration();
    Play(d, stream, fd, c, Start([]));
    LinearWire(c, Asks(stream));
  }
}
